/** Bringing the tree in step with an edited text (`update_tree` and the tree
    operations it is made of), for arbitrary search hints. */
module TreeUpdate {
  import opened Wrappers
  import opened SegmentTree
  import opened SegmentErase
  import opened SegmentInsert
  import opened InvalidList
  import opened SegmentDelete
  import opened SegmentCreate
  import opened Labelling
  import opened DirtMoves
  import opened SegmentRemove
  import opened InvalidExtent
  import opened Sequences

  /** `update_tree` seen character by character.  [start, end) is the invalid
      region in the new offsets and `delta` the change of length. */
  ghost predicate SoundUpdate(before: Segment, after: Segment, start: int, end: int, delta: int) {
    && after.endAt == before.endAt + delta
    && (forall o :: 0 <= o < start ==> KeptOrLost(ContextAt(after, o), before, o, start, end - delta))
    && (forall o :: start <= o < end ==> ContextAt(after, o) == None)
    && (forall o :: end <= o < after.endAt ==> KeptOrLost(ContextAt(after, o), before, o - delta, start, end - delta))
    && HasInvalid(after.children, start, start)
  }

  /** The same after the first half of it: only the length change was applied. */
  ghost predicate Adjusted(before: Segment, after: Segment, start: int, end: int, delta: int) {
    && after.endAt == before.endAt + delta
    && (forall o :: 0 <= o < start ==>
          if delta > 0 then KeptOrLost(ContextAt(after, o), before, o, start, start)
          else MarkAt(after, o) == MarkAt(before, o))
    && (forall o :: end <= o < after.endAt ==>
          if delta > 0 then KeptOrLost(ContextAt(after, o), before, o - delta, start, start)
          else DeletedMark(MarkAt(after, o), MarkAt(before, o - delta), end, end - delta))
    && (forall o :: start <= o < start + delta ==> ContextAt(after, o) == None)
    && (delta > 0 ==> HasInvalid(after.children, start, start))
  }

  lemma InsertAdjusts(before: Segment, after: Segment, start: int, end: int, delta: int)
    requires ValidRoot(after) && after.endAt == before.endAt + delta
    requires 0 <= start <= end && 0 < delta && start <= end - delta <= before.endAt
    requires forall o :: 0 <= o < before.endAt ==> KeptMark(MarkAt(after, Moved(o, start, delta)), before, o, start, delta)
    requires HasInvalid(after.children, start, start + delta)
    ensures Adjusted(before, after, start, end, delta)
  {
    forall o | 0 <= o < start ensures KeptOrLost(ContextAt(after, o), before, o, start, start) {
      assert Moved(o, start, delta) == o;
    }
    forall o | end <= o < after.endAt ensures KeptOrLost(ContextAt(after, o), before, o - delta, start, start) {
      assert Moved(o - delta, start, delta) == o;
    }
    forall o | start <= o < start + delta ensures ContextAt(after, o) == None {
      InvalidMarks(after.children, 0, after.endAt, after.context, start, start + delta, o, Own(after));
    }
    HasInvalidNarrow(after.children, start, start + delta, start, start);
  }

  /** After the second half the invalid segment starts exactly at the region:
      the characters the zero-length insertion costs are those of a simple
      segment that the deletion left next to `start`. */
  lemma InsertSettles(before: Segment, middle: Segment, after: Segment, start: int, delta: int)
    requires Adjusted(before, middle, start, start, delta) && delta <= 0 <= start <= middle.endAt
    requires after.endAt == middle.endAt && HasInvalid(after.children, start, start)
    requires forall o :: 0 <= o < middle.endAt ==> KeptMark(MarkAt(after, Moved(o, start, 0)), middle, o, start, 0)
    ensures SoundUpdate(before, after, start, start, delta)
  {
    forall o | 0 <= o < start ensures KeptOrLost(ContextAt(after, o), before, o, start, start - delta) {
      assert Moved(o, start, 0) == o;
      assert MarkAt(middle, o) == MarkAt(before, o) && MarkAt(middle, start - 1) == MarkAt(before, start - 1);
    }
    forall o | start <= o < after.endAt ensures KeptOrLost(ContextAt(after, o), before, o - delta, start, start - delta) {
      assert Moved(o, start, 0) == o;
      assert DeletedMark(MarkAt(middle, o), MarkAt(before, o - delta), start, start - delta);
    }
  }

  lemma InvalidateSettles(before: Segment, middle: Segment, after: Segment, start: int, end: int, delta: int)
    requires Adjusted(before, middle, start, end, delta) && start <= end - delta
    requires after.context.Some? && after.endAt == middle.endAt
    requires var e := if delta <= 0 then start else start + delta;
      && e < end
      && HasInvalid(after.children, e, end)
      && forall o :: ContextAt(after, o) == (if e <= o < end then None else ContextAt(middle, o))
    ensures SoundUpdate(before, after, start, end, delta)
  {
    if delta > 0 {
      assert ContextAt(after, start) == None;
      InvalidMarkHasInvalid(after.children, start, Own(after));
    } else {
      HasInvalidNarrow(after.children, start, end, start, start);
    }
  }

  lemma NothingSettles(before: Segment, middle: Segment, start: int, delta: int)
    requires Adjusted(before, middle, start, if delta <= 0 then start else start + delta, delta)
    requires HasInvalid(middle.children, start, start) && middle.endAt >= start
    ensures SoundUpdate(before, middle, start, if delta <= 0 then start else start + delta, delta)
  {
  }

  // ----- the operations -----

  /** `erase_segments`: one pass to the right from the child of the toplevel
      segment that the hint lies under, and one pass to its left. */
  method EraseSegments(root: Segment, a: int, b: int, hint: nat) returns (r: Segment)
    requires ValidRoot(root) && a < b
    ensures r == Erased(root, a, b)
  {
    var cs := root.children;
    if cs == [] {
      return root;
    }
    ForestBounds(cs, root.startAt, root.endAt, root.context);
    var from := if hint < |cs| then hint else 0;
    var right := EraseRight(cs, a, b, from);
    var left := EraseLeft(cs, a, b, from);
    assert cs == cs[..from] + cs[from..];
    EraseAppend(cs[..from], cs[from..], a, b);
    r := root.(children := left + right);
  }

  lemma EraseNext(cs: seq<Segment>, i: nat, a: int, b: int)
    requires i < |cs|
    ensures EraseForest(cs[i..], a, b) == EraseRange(cs[i], a, b) + EraseForest(cs[i + 1..], a, b)
    ensures cs[i].startAt <= cs[i].endAt < a < b ==> EraseRange(cs[i], a, b) == [cs[i]]
  {
    assert cs[i..][1..] == cs[i + 1..];
  }

  lemma EraseTail(cs: seq<Segment>, i: nat, a: int, b: int)
    requires i < |cs| && a < b && cs[i].startAt > b
    requires forall j :: 0 <= j < |cs| ==> cs[j].startAt <= cs[j].endAt
    requires forall j, k :: 0 <= j < k < |cs| ==> cs[j].endAt <= cs[k].startAt
    ensures EraseForest(cs[i..], a, b) == cs[i..]
  {
    EraseOutside(cs[i..], a, b);
  }

  method EraseRight(cs: seq<Segment>, a: int, b: int, from: nat) returns (r: seq<Segment>)
    requires from <= |cs| && a < b
    requires forall i :: 0 <= i < |cs| ==> cs[i].startAt <= cs[i].endAt
    requires forall i, j :: 0 <= i < j < |cs| ==> cs[i].endAt <= cs[j].startAt
    ensures r == EraseForest(cs[from..], a, b)
  {
    r := [];
    var i := from;
    while i < |cs|
      invariant from <= i <= |cs|
      invariant r + EraseForest(cs[i..], a, b) == EraseForest(cs[from..], a, b)
    {
      var child := cs[i];
      if child.startAt > b {
        EraseTail(cs, i, a, b);
        return r + cs[i..];
      }
      EraseNext(cs, i, a, b);
      Regroup(r, EraseRange(child, a, b), EraseForest(cs[i + 1..], a, b));
      if child.endAt < a {
        r := r + [child];
      } else {
        r := r + EraseRange(child, a, b);
      }
      i := i + 1;
    }
  }

  lemma ErasePrevious(cs: seq<Segment>, i: nat, a: int, b: int)
    requires 0 < i <= |cs|
    ensures EraseForest(cs[..i], a, b) == EraseForest(cs[..i - 1], a, b) + EraseRange(cs[i - 1], a, b)
    ensures cs[i - 1].startAt > b > a && cs[i - 1].startAt <= cs[i - 1].endAt ==> EraseRange(cs[i - 1], a, b) == [cs[i - 1]]
  {
    assert cs[..i] == cs[..i - 1] + [cs[i - 1]];
    EraseAppend(cs[..i - 1], [cs[i - 1]], a, b);
    EraseSingle(cs[i - 1], a, b);
  }

  lemma EraseHead(cs: seq<Segment>, i: nat, a: int, b: int)
    requires 0 < i <= |cs| && a < b && cs[i - 1].endAt < a
    requires forall j :: 0 <= j < |cs| ==> cs[j].startAt <= cs[j].endAt
    requires forall j, k :: 0 <= j < k < |cs| ==> cs[j].endAt <= cs[k].startAt
    ensures EraseForest(cs[..i], a, b) == cs[..i]
  {
    EraseOutside(cs[..i], a, b);
  }

  lemma NothingErased(cs: seq<Segment>, from: nat, a: int, b: int)
    requires from <= |cs|
    ensures EraseForest(cs[..0], a, b) == [] && EraseForest(cs[..from], a, b) + [] == EraseForest(cs[..from], a, b)
  {
  }

  method EraseLeft(cs: seq<Segment>, a: int, b: int, from: nat) returns (r: seq<Segment>)
    requires from <= |cs| && a < b
    requires forall i :: 0 <= i < |cs| ==> cs[i].startAt <= cs[i].endAt
    requires forall i, j :: 0 <= i < j < |cs| ==> cs[i].endAt <= cs[j].startAt
    ensures r == EraseForest(cs[..from], a, b)
  {
    hide EraseForest, EraseRange;
    r := [];
    var i := from;
    NothingErased(cs, from, a, b);
    while i > 0
      invariant 0 <= i <= from
      invariant EraseForest(cs[..i], a, b) + r == EraseForest(cs[..from], a, b)
    {
      var child := cs[i - 1];
      ErasePrevious(cs, i, a, b);
      Regroup(EraseForest(cs[..i - 1], a, b), EraseRange(child, a, b), r);
      if child.startAt > b {
        r := [child] + r;
      } else if child.endAt < a {
        EraseHead(cs, i, a, b);
        return cs[..i] + r;
      } else {
        r := EraseRange(child, a, b) + r;
      }
      i := i - 1;
    }
  }

  lemma NoInvalidAt(root: Segment, offset: nat)
    requires forall p :: IsPath(root, p) && At(root, p).IsInvalid() ==> !At(root, p).Touches(offset)
    ensures !HasInvalid(root.children, offset, offset)
  {
    if HasInvalid(root.children, offset, offset) {
      var p := HasInvalidPath(root, root.children, 0, offset, offset);
      assert At(root, p).Touches(offset);
    }
  }

  /** What `insert_range` does: nothing when there is an invalid segment already and
      no text to add; otherwise the insertion at the innermost place or at an invalid
      segment that touches the offset. */
  ghost predicate InsertedAt(root: Segment, r: Segment, offset: nat, length: nat)
    requires ValidRoot(root)
  {
    if length == 0 && HasInvalid(root.children, offset, offset) then r == root
    else exists path: Path, k: nat ::
      && IsPlace(root, path, k, offset) && IsPath(root, path)
      && Innermost(root, path, offset)
      && r == Inserted(root, path, k, offset, length)
  }

  /** In an analyzed tree the insertion makes one invalid segment. */
  lemma InsertedCount(root: Segment, r: Segment, offset: nat, length: nat)
    requires ValidRoot(root) && offset <= root.endAt && InvalidCount(root.children) == 0 && InsertedAt(root, r, offset, length)
    ensures InvalidCount(r.children) == 1
  {
    NoneHasNone(root.children, offset, offset);
    var path: Path, k: nat :| IsPlace(root, path, k, offset) && IsPath(root, path) && Innermost(root, path, offset)
      && r == Inserted(root, path, k, offset, length);
    PlaceIsPath(root, path, k, offset);
    if At(root, path).IsInvalid() { RemoveCount(root, path); }
    InsertCount(root, path, k, offset, length);
    CountSingle(r);
    assert InsertAlong(root, path, k, offset, length) == [r];
  }

  /** What inserting keeps. */
  lemma InsertedFacts(root: Segment, r: Segment, offset: nat, length: nat)
    requires ValidRoot(root) && offset <= root.endAt && InsertedAt(root, r, offset, length)
    ensures ValidRoot(r) && r.endAt == root.endAt + length && HasInvalid(r.children, offset, offset + length)
    ensures forall o :: 0 <= o < root.endAt ==> KeptMark(MarkAt(r, Moved(o, offset, length)), root, o, offset, length)
    ensures Follows(root, r, offset, offset, length)
  {
    if length == 0 && HasInvalid(root.children, offset, offset) {
      FollowsSame(root, offset, offset);
    } else {
      var path: Path, k: nat :| IsPlace(root, path, k, offset) && IsPath(root, path) && Innermost(root, path, offset)
        && r == Inserted(root, path, k, offset, length);
      InsertedRoot(root, path, k, offset, length);
      forall o | 0 <= o < root.endAt ensures KeptMark(MarkAt(r, Moved(o, offset, length)), root, o, offset, length) {
        InsertedRootMarks(root, path, k, offset, length, o);
      }
      InsertedFollows(root, path, k, offset, length);
    }
  }

  /** `insert_range` */
  method InsertRange(root: Segment, offset: nat, length: nat, hint: nat) returns (r: Segment)
    requires ValidRoot(root) && offset <= root.endAt
    ensures ValidRoot(r) && r.endAt == root.endAt + length && InsertedAt(root, r, offset, length)
    ensures HasInvalid(r.children, offset, offset + length)
    ensures forall o :: 0 <= o < root.endAt ==> KeptMark(MarkAt(r, Moved(o, offset, length)), root, o, offset, length)
    ensures Follows(root, r, offset, offset, length)
  {
    var place := GetInvalidAt(root, offset);
    var path, k;
    if place.Some? {
      path, k := place.value, 0;
      InvalidIsPlace(root, path, offset);
      if length == 0 {
        PathHasInvalid(root, path, offset, offset);
        FollowsSame(root, offset, offset);
        return root;
      }
    } else {
      path, k := FindInsertionPlace(root, offset, hint);
      NoInvalidAt(root, offset);
    }
    PlaceIsPath(root, path, k, offset);
    r := Inserted(root, path, k, offset, length);
    InsertedFacts(root, r, offset, length);
  }

  /** What deleting keeps. */
  lemma DeletedFacts(root: Segment, a: nat, b: nat)
    requires ValidRoot(root) && a < b <= root.endAt
    ensures var r := Deleted(root, a, b);
      && ValidRoot(r) && r.endAt == root.endAt - (b - a) && Follows(root, r, a, b, a - b)
      && (forall o :: o < a ==> MarkAt(r, o) == MarkAt(root, o))
      && (forall o :: a <= o ==> DeletedMark(MarkAt(r, o), MarkAt(root, o + (b - a)), a, b))
  {
    var r := Deleted(root, a, b);
    DeletedRoot(root, a, b);
    DeletedFollows(root, a, b);
    forall o | o < a ensures MarkAt(r, o) == MarkAt(root, o) {
      DeletedRootMarks(root, a, b, o);
    }
    forall o | a <= o ensures DeletedMark(MarkAt(r, o), MarkAt(root, o + (b - a)), a, b) {
      DeletedRootMarks(root, a, b, o + (b - a));
    }
  }

  /** `delete_range_` */
  method DeleteRange(root: Segment, a: nat, b: nat, hint: nat) returns (r: Segment)
    requires ValidRoot(root) && a < b <= root.endAt
    ensures r == Deleted(root, a, b)
  {
    r := EraseSegments(root, a, b, hint);
    ErasedRoot(root, a, b);
    r := FixOffsetsDelete(r, a, b - a, hint);
  }

  lemma InvalidatedFilled(root: Segment, a: int, b: int, k: nat)
    requires ValidRoot(root) && a < b && Filled(root.children) && k <= |EraseForest(root.children, a, b)|
    ensures Filled(Invalidated(root, a, b, k).children)
  {
    var kids, x := EraseForest(root.children, a, b), InvalidSegment(a, b);
    EraseForestFilled(root.children, 0, root.endAt, a, b, root.context);
    assert kids == kids[..k] + kids[k..];
    FilledAppend(kids[..k], kids[k..]);
    FilledAppend(kids[..k] + [x], kids[k..]);
    FilledAppend(kids[..k], [x]);
    FilledSingle(x);
  }

  /** After edits of an analyzed tree: a region with text in it leaves no empty invalid
      segment, and an empty one leaves one invalid segment at most. */
  predicate OneEdit(before: Segment, after: Segment, delta: int, empty: bool) {
    InvalidCount(before.children) == 0 ==>
      if delta > 0 || !empty then Filled(after.children) else InvalidCount(after.children) <= 1
  }

  /** The erased range is one invalid child of the toplevel segment. */
  ghost predicate InvalidatedAt(root: Segment, r: Segment, a: int, b: int) {
    exists k: nat :: k <= |EraseForest(root.children, a, b)| && IsPosition(EraseForest(root.children, a, b), k, a, b) && r == Invalidated(root, a, b, k)
  }

  lemma InvalidatedFacts(root: Segment, r: Segment, a: nat, b: nat)
    requires ValidRoot(root) && a < b <= root.endAt && InvalidatedAt(root, r, a, b)
    ensures ValidRoot(r) && r.endAt == root.endAt && HasInvalid(r.children, a, b)
    ensures forall o :: ContextAt(r, o) == (if a <= o < b then None else ContextAt(root, o))
    ensures Follows(root, r, a, b, 0)
    ensures Filled(root.children) ==> Filled(r.children)
  {
    var k: nat :| k <= |EraseForest(root.children, a, b)| && IsPosition(EraseForest(root.children, a, b), k, a, b) && r == Invalidated(root, a, b, k);
    InvalidatedRoot(root, a, b, k);
    InvalidatedFollows(root, a, b, k);
    if Filled(root.children) { InvalidatedFilled(root, a, b, k); }
  }

  method InvalidateRange(root: Segment, a: nat, b: nat, hint: nat) returns (r: Segment)
    requires ValidRoot(root) && a < b <= root.endAt
    ensures InvalidatedAt(root, r, a, b)
  {
    r := EraseSegments(root, a, b, hint);
    ErasedRoot(root, a, b);
    ErasedHasRoom(root, a, b);
    var k := FindSegmentPosition(r.children, r.startAt, r.endAt, r.context, hint, a, b);
    r := r.(children := Link(r.children, k, InvalidSegment(a, b)));
  }

  // ----- the two halves -----

  /** The invalid region is one of the tree and of the edited text. */
  predicate IsRegion(root: Segment, start: int, end: int, delta: int) {
    0 <= start <= end <= root.endAt + delta && start <= end - delta <= root.endAt
  }

  /** The first half of `update_tree`: the offsets of the tree are brought in step
      with the buffer. */
  ghost predicate AdjustedBy(root: Segment, r: Segment, start: int, end: int, delta: int)
    requires ValidRoot(root) && IsRegion(root, start, end, delta)
  {
    if delta > 0 then InsertedAt(root, r, start, delta)
    else if delta < 0 then r == Deleted(root, end, end - delta)
    else r == root
  }

  /** The second half: what is left of the region becomes invalid. */
  ghost predicate SettledBy(middle: Segment, r: Segment, start: int, end: int, delta: int)
    requires ValidRoot(middle) && 0 <= start
  {
    var eraseStart := if delta <= 0 then start else start + delta;
    if eraseStart < end then InvalidatedAt(middle, r, eraseStart, end) else InsertedAt(middle, r, start, 0)
  }

  lemma AdjustedFacts(root: Segment, r: Segment, start: int, end: int, delta: int)
    requires ValidRoot(root) && IsRegion(root, start, end, delta) && AdjustedBy(root, r, start, end, delta)
    ensures ValidRoot(r) && Adjusted(root, r, start, end, delta)
    ensures Follows(root, r, start, end - delta, delta)
    ensures OneEdit(root, r, delta, true) && (delta <= 0 ==> InvalidCount(root.children) == 0 ==> InvalidCount(r.children) == 0)
  {
    hide Follows, InvalidCount, Filled, InsertedAt, Deleted;
    if delta > 0 {
      InsertedFacts(root, r, start, delta);
      if InvalidCount(root.children) == 0 {
        InsertedCount(root, r, start, delta);
        OneFilled(r.children, start, start + delta);
      }
      InsertAdjusts(root, r, start, end, delta);
      FollowsSame(r, start, end);
      FollowsTwice(root, r, r, start, start, delta, start, end, 0, start, end - delta);
    } else if delta < 0 {
      DeletedFacts(root, end, end - delta);
      if InvalidCount(root.children) == 0 { DeletedCount(root, end, end - delta); }
      FollowsSame(r, start, end);
      FollowsTwice(root, r, r, end, end - delta, delta, start, end, 0, start, end - delta);
    } else {
      FollowsSame(root, start, end);
    }
  }

  lemma SettledFacts(before: Segment, middle: Segment, r: Segment, start: int, end: int, delta: int)
    requires ValidRoot(middle) && 0 <= start <= end <= middle.endAt && start <= end - delta && SettledBy(middle, r, start, end, delta)
    requires Adjusted(before, middle, start, end, delta) && Follows(before, middle, start, end - delta, delta)
    requires OneEdit(before, middle, delta, true) && (delta <= 0 ==> InvalidCount(before.children) == 0 ==> InvalidCount(middle.children) == 0)
    ensures OneEdit(before, r, delta, start == end)
    ensures ValidRoot(r) && SoundUpdate(before, r, start, end, delta)
    ensures Follows(before, r, start, end - delta, delta)
  {
    var eraseStart := if delta <= 0 then start else start + delta;
    if eraseStart < end {
      if InvalidCount(middle.children) == 0 { NoneFilled(middle.children); }
      InvalidatedFacts(middle, r, eraseStart, end);
      InvalidateSettles(before, middle, r, start, end, delta);
      FollowsTwice(before, middle, r, start, end - delta, delta, eraseStart, end, 0, start, end - delta);
    } else if HasInvalid(middle.children, start, start) {
      NothingSettles(before, middle, start, delta);
    } else {
      InsertedFacts(middle, r, start, 0);
      if InvalidCount(middle.children) == 0 { InsertedCount(middle, r, start, 0); }
      InsertSettles(before, middle, r, start, delta);
      FollowsTwice(before, middle, r, start, end - delta, delta, start, start, 0, start, end - delta);
    }
  }

  // ----- update_tree -----

  /** The tree after `update_tree` in terms of the tree operations. */
  ghost predicate UpdatedBy(root: Segment, r: Segment, start: int, end: int, delta: int)
    requires ValidRoot(root) && IsRegion(root, start, end, delta)
  {
    exists middle :: AdjustedBy(root, middle, start, end, delta) && ValidRoot(middle) && SettledBy(middle, r, start, end, delta)
  }

  lemma UpdatedFacts(root: Segment, r: Segment, start: int, end: int, delta: int)
    requires ValidRoot(root) && IsRegion(root, start, end, delta) && UpdatedBy(root, r, start, end, delta)
    ensures ValidRoot(r) && SoundUpdate(root, r, start, end, delta)
    ensures Follows(root, r, start, end - delta, delta)
    ensures OneEdit(root, r, delta, start == end)
  {
    hide AdjustedBy, SettledBy, SoundUpdate, Follows, OneEdit, ValidRoot;
    var middle :| AdjustedBy(root, middle, start, end, delta) && ValidRoot(middle) && SettledBy(middle, r, start, end, delta);
    AdjustedFacts(root, middle, start, end, delta);
    SettledFacts(root, middle, r, start, end, delta);
  }

  method AdjustOffsets(root: Segment, start: int, end: int, delta: int, hint: nat) returns (r: Segment)
    requires ValidRoot(root) && IsRegion(root, start, end, delta)
    ensures AdjustedBy(root, r, start, end, delta)
  {
    if delta > 0 {
      r := InsertRange(root, start, delta, hint);
    } else if delta < 0 {
      r := DeleteRange(root, end, end - delta, hint);
    } else {
      r := root;
    }
  }

  method InvalidateRest(middle: Segment, start: int, end: int, delta: int, hint: nat) returns (r: Segment)
    requires ValidRoot(middle) && 0 <= start <= end <= middle.endAt
    ensures SettledBy(middle, r, start, end, delta)
  {
    var eraseStart := if delta <= 0 then start else start + delta;
    if eraseStart < end {
      r := InvalidateRange(middle, eraseStart, end, hint);
    } else {
      var place := GetInvalidAt(middle, start);
      if place.None? {
        r := InsertRange(middle, start, 0, hint);
      } else {
        PathHasInvalid(middle, place.value, start, start);
        r := middle;
      }
    }
  }

  /** `update_tree` on the tree; [start, end) and `delta` are the invalid region. */
  method UpdateTree(root: Segment, start: int, end: int, delta: int, hint: nat, hint2: nat) returns (r: Segment)
    requires ValidRoot(root) && IsRegion(root, start, end, delta)
    ensures ValidRoot(r) && SoundUpdate(root, r, start, end, delta)
    ensures Follows(root, r, start, end - delta, delta)
    ensures OneEdit(root, r, delta, start == end) && UpdatedBy(root, r, start, end, delta)
  {
    hide AdjustedBy, SettledBy, SoundUpdate, Follows, OneEdit;
    var middle := AdjustOffsets(root, start, end, delta, hint);
    AdjustedFacts(root, middle, start, end, delta);
    AdjustedLength(root, middle, start, end, delta);
    r := InvalidateRest(middle, start, end, delta, hint2);
    UpdatedFacts(root, r, start, end, delta);
  }

  lemma AdjustedLength(before: Segment, after: Segment, start: int, end: int, delta: int)
    requires Adjusted(before, after, start, end, delta)
    ensures after.endAt == before.endAt + delta
  {
  }
}
