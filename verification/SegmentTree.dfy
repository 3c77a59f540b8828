/** The tree of text segments, its shape and what it says about each character. */
module SegmentTree {
  import opened Wrappers
  import opened Contexts

  /** A segment covers the half-open interval [startAt, endAt).  `context` is
      None exactly for the invalid segments that mark text to be analyzed.
      The sibling list is a sequence; `prev`, `next`, `parent`, `children` and
      `last_child` are positions in it. */
  datatype Segment = Segment(
    context: Option<Context>,
    startAt: int,
    endAt: int,
    isStart: bool,
    children: seq<Segment>)
  {
    predicate Covers(o: int) { startAt <= o < endAt }
    predicate Touches(o: int) { startAt <= o <= endAt }
    predicate IsInvalid() { context.None? }
    predicate IsContainer() { context.Some? && context.value.IsContainer() }
    predicate IsSimple() { context.Some? && context.value.IsSimple() }
  }

  function InvalidSegment(startAt: int, endAt: int): Segment {
    Segment(None, startAt, endAt, false, [])
  }

  // ----- shape -----

  /** The properties that `check_segment` asserts of a segment and, through its
      children, of everything below it. */
  predicate Valid(s: Segment) {
    && s.startAt <= s.endAt
    && (s.children != [] ==> s.IsContainer())
    && ValidForest(s.children, s.startAt, s.endAt, s.context)
  }

  /** A list of siblings: in order, disjoint, inside [lo, hi], each well formed
      and each with a context that belongs under the parent's. */
  predicate ValidForest(cs: seq<Segment>, lo: int, hi: int, parent: Option<Context>) {
    if cs == [] then
      lo <= hi
    else
      && lo <= cs[0].startAt
      && Fits(cs[0].context, parent)
      && Valid(cs[0])
      && ValidForest(cs[1..], cs[0].endAt, hi, parent)
  }

  /** The toplevel segment, as `check_tree` describes it. */
  predicate ValidRoot(root: Segment) {
    root.context == Some(Root) && root.startAt == 0 && root.isStart && Valid(root)
  }

  // ----- what the tree says about a character -----

  /** What is known of a character: which segment is the deepest one at it. */
  datatype Mark = Mark(context: Option<Context>, startAt: int, isStart: bool)

  function Own(s: Segment): Mark {
    Mark(s.context, s.startAt, s.isStart)
  }

  function MarkAt(s: Segment, o: int): Mark
    decreases s, 1
  {
    MarkIn(s.children, o, Own(s))
  }

  /** The deepest segment at `o` among `cs`, or `outer` when none covers it. */
  function MarkIn(cs: seq<Segment>, o: int, outer: Mark): Mark
    decreases cs, 0
  {
    if cs == [] then outer
    else if cs[0].Covers(o) then MarkAt(cs[0], o)
    else MarkIn(cs[1..], o, outer)
  }

  predicate Covered(cs: seq<Segment>, o: int) {
    exists i :: 0 <= i < |cs| && cs[i].Covers(o)
  }

  // ----- paths -----

  /** Child indices from the toplevel segment down to a segment. */
  type Path = seq<nat>

  predicate IsPath(s: Segment, path: Path)
    decreases path
  {
    path == [] || (path[0] < |s.children| && IsPath(s.children[path[0]], path[1..]))
  }

  function At(s: Segment, path: Path): Segment
    requires IsPath(s, path)
    decreases path
  {
    if path == [] then s else At(s.children[path[0]], path[1..])
  }

  // ----- lists of siblings -----

  function EndOf(cs: seq<Segment>, lo: int): int {
    if cs == [] then lo else cs[|cs| - 1].endAt
  }

  lemma ForestAppend(a: seq<Segment>, b: seq<Segment>, lo: int, hi: int, p: Option<Context>)
    ensures ValidForest(a + b, lo, hi, p) <==>
            ValidForest(a, lo, hi, p) && ValidForest(b, EndOf(a, lo), hi, p)
    decreases a
  {
    if a == [] {
      assert a + b == b;
      if ValidForest(b, lo, hi, p) { ForestBounds(b, lo, hi, p); }
    } else {
      assert (a + b)[1..] == a[1..] + b;
      ForestAppend(a[1..], b, a[0].endAt, hi, p);
    }
  }

  lemma ForestBounds(cs: seq<Segment>, lo: int, hi: int, p: Option<Context>)
    requires ValidForest(cs, lo, hi, p)
    ensures lo <= EndOf(cs, lo) <= hi
    ensures forall i :: 0 <= i < |cs| ==>
      lo <= cs[i].startAt <= cs[i].endAt <= hi && Valid(cs[i]) && Fits(cs[i].context, p)
    ensures forall i, j :: 0 <= i < j < |cs| ==> cs[i].endAt <= cs[j].startAt
    decreases cs
  {
    if cs != [] {
      ForestBounds(cs[1..], cs[0].endAt, hi, p);
      assert forall i :: 1 <= i < |cs| ==> cs[i] == cs[1..][i - 1];
    }
  }

  lemma ChildBounds(s: Segment, i: nat)
    requires Valid(s) && i < |s.children|
    ensures var c := s.children[i];
      s.startAt <= c.startAt <= c.endAt <= s.endAt && Valid(c) && Fits(c.context, s.context)
  {
    ForestBounds(s.children, s.startAt, s.endAt, s.context);
  }

  /** A list of siblings may be given any interval that holds its ends. */
  lemma ForestRebound(cs: seq<Segment>, lo: int, hi: int, lo': int, hi': int, p: Option<Context>)
    requires ValidForest(cs, lo, hi, p)
    requires if cs == [] then lo' <= hi' else lo' <= cs[0].startAt && (hi <= hi' || EndOf(cs, lo) <= hi')
    ensures ValidForest(cs, lo', hi', p)
    decreases cs
  {
    if cs != [] {
      ForestBounds(cs, lo, hi, p);
      ForestRebound(cs[1..], cs[0].endAt, hi, cs[0].endAt, hi', p);
    }
  }

  lemma MarkAppend(a: seq<Segment>, b: seq<Segment>, o: int, outer: Mark)
    ensures MarkIn(a + b, o, outer) == MarkIn(a, o, MarkIn(b, o, outer))
    decreases a
  {
    if a == [] {
      assert a + b == b;
    } else {
      assert (a + b)[1..] == a[1..] + b;
      MarkAppend(a[1..], b, o, outer);
    }
  }

  lemma MarkUncovered(cs: seq<Segment>, o: int, outer: Mark)
    requires !Covered(cs, o)
    ensures MarkIn(cs, o, outer) == outer
    decreases cs
  {
    if cs != [] {
      assert forall i :: 0 <= i < |cs[1..]| ==> cs[1..][i] == cs[i + 1];
      MarkUncovered(cs[1..], o, outer);
    }
  }

  lemma MarkCovered(cs: seq<Segment>, o: int, outer: Mark, outer': Mark)
    requires Covered(cs, o)
    ensures MarkIn(cs, o, outer) == MarkIn(cs, o, outer')
    decreases cs
  {
    if cs != [] && !cs[0].Covers(o) {
      var i :| 0 <= i < |cs| && cs[i].Covers(o);
      assert cs[1..][i - 1] == cs[i];
      MarkCovered(cs[1..], o, outer, outer');
    }
  }

  lemma MarkSingle(s: Segment, o: int, outer: Mark)
    ensures MarkIn([s], o, outer) == if s.Covers(o) then MarkAt(s, o) else outer
  {
    assert [s][1..] == [];
  }

  lemma CoveredSingle(s: Segment, o: int)
    ensures Covered([s], o) <==> s.Covers(o)
  {
    assert [s][0] == s;
  }

  lemma CoveredAppend(x: seq<Segment>, y: seq<Segment>, o: int)
    ensures Covered(x + y, o) <==> Covered(x, o) || Covered(y, o)
  {
    if Covered(x, o) {
      var i :| 0 <= i < |x| && x[i].Covers(o);
      assert (x + y)[i] == x[i];
    }
    if Covered(y, o) {
      var i :| 0 <= i < |y| && y[i].Covers(o);
      assert (x + y)[|x| + i] == y[i];
    }
  }

  lemma SingleShape(s: Segment, lo: int, hi: int, p: Option<Context>)
    requires Valid(s) && Fits(s.context, p) && lo <= s.startAt && s.endAt <= hi
    ensures ValidForest([s], lo, hi, p)
  {
    assert [s][1..] == [];
  }

  lemma JoinShape(r: seq<Segment>, l: int, m: int, t: seq<Segment>, hi: int, lo: int, p: Option<Context>)
    requires lo <= l && ValidForest(r, l, m, p) && ValidForest(t, m, hi, p)
    ensures ValidForest(r + t, lo, hi, p)
  {
    ForestBounds(r, l, m, p);
    ForestBounds(t, m, hi, p);
    ForestRebound(r, l, m, lo, hi, p);
    ForestRebound(t, m, hi, EndOf(r, lo), hi, p);
    ForestAppend(r, t, lo, hi, p);
  }

  lemma SliceShape(cs: seq<Segment>, lo: int, hi: int, p: Option<Context>, i: nat, j: nat)
    requires ValidForest(cs, lo, hi, p) && i <= j <= |cs|
    ensures ValidForest(cs[..i], lo, hi, p)
    ensures ValidForest(cs[j..], EndOf(cs[..j], lo), hi, p)
  {
    assert cs == cs[..i] + cs[i..] && cs == cs[..j] + cs[j..];
    ForestAppend(cs[..i], cs[i..], lo, hi, p);
    ForestAppend(cs[..j], cs[j..], lo, hi, p);
  }

  // ----- invalid segments -----

  /** Some invalid segment of the forest, at any depth, contains [lo, hi]. */
  predicate HasInvalid(cs: seq<Segment>, lo: int, hi: int) {
    cs != [] &&
    ( (cs[0].IsInvalid() && cs[0].startAt <= lo && hi <= cs[0].endAt)
      || HasInvalid(cs[0].children, lo, hi)
      || HasInvalid(cs[1..], lo, hi))
  }

  lemma HasInvalidAppend(x: seq<Segment>, y: seq<Segment>, lo: int, hi: int)
    ensures HasInvalid(x + y, lo, hi) <==> HasInvalid(x, lo, hi) || HasInvalid(y, lo, hi)
    decreases x
  {
    if x == [] {
      assert x + y == y;
    } else {
      assert (x + y)[1..] == x[1..] + y;
      HasInvalidAppend(x[1..], y, lo, hi);
    }
  }

  /** Every character inside an invalid segment is invalid. */
  lemma {:induction false} InvalidMarks(cs: seq<Segment>, lo: int, hi: int, p: Option<Context>, x: int, y: int, o: int, outer: Mark)
    requires ValidForest(cs, lo, hi, p) && HasInvalid(cs, x, y) && x <= o < y
    ensures Covered(cs, o) && MarkIn(cs, o, outer).context == None
    decreases cs
  {
    assert cs == [cs[0]] + cs[1..];
    CoveredAppend([cs[0]], cs[1..], o);
    CoveredSingle(cs[0], o);
    if cs[0].IsInvalid() && cs[0].startAt <= x && y <= cs[0].endAt {
      assert MarkAt(cs[0], o) == Own(cs[0]);
    } else if HasInvalid(cs[0].children, x, y) {
      var c := cs[0];
      InvalidMarks(c.children, c.startAt, c.endAt, c.context, x, y, o, Own(c));
      ForestBounds(c.children, c.startAt, c.endAt, c.context);
    } else {
      InvalidMarks(cs[1..], cs[0].endAt, hi, p, x, y, o, outer);
      ForestBounds(cs[1..], cs[0].endAt, hi, p);
    }
  }
}
