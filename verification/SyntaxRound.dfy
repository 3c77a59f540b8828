/** The parts of one round of `update_syntax`: erase a line, find the state, analyze
    the line, and compare with what follows. */
module SyntaxRound {
  import opened Wrappers
  import opened Contexts
  import opened Language
  import opened LineAnalysis
  import opened Lines
  import opened SegmentTree
  import opened SegmentLookup
  import opened InvalidList
  import opened Labelling
  import opened Dirt
  import opened Spine
  import opened LineBuild
  import opened Consistency
  import opened LineStep
  import opened SegmentMerge
  import TreeUpdate

  // ----- segments at the end of paths -----

  lemma {:induction false} PathDirty(s: Segment, p: Path, x: int, y: int)
    requires p != [] && IsPath(s, p) && At(s, p).IsInvalid() && Meets(At(s, p), x, y)
    ensures Dirty(s.children, x, y)
    decreases p
  {
    var c := s.children[p[0]];
    assert s.children == s.children[..p[0]] + ([c] + s.children[p[0] + 1..]);
    DirtyAppend(s.children[..p[0]], [c] + s.children[p[0] + 1..], x, y);
    DirtyAppend([c], s.children[p[0] + 1..], x, y);
    DirtySingle(c, x, y);
    if p[1..] == [] { assert At(s, p) == c; } else { PathDirty(c, p[1..], x, y); }
  }

  lemma {:induction false} PathNonStart(s: Segment, p: Path)
    requires p != [] && IsPath(s, p) && At(s, p).IsContainer() && !At(s, p).isStart
    ensures NonStart(s.children, At(s, p).startAt)
    decreases p
  {
    var c, q := s.children[p[0]], At(s, p).startAt;
    assert s.children == s.children[..p[0]] + ([c] + s.children[p[0] + 1..]);
    NonStartAppend(s.children[..p[0]], [c] + s.children[p[0] + 1..], q);
    NonStartAppend([c], s.children[p[0] + 1..], q);
    NonStartSingle(c, q);
    if p[1..] != [] { PathNonStart(c, p[1..]); }
  }

  lemma {:induction false} PathSolid(s: Segment, p: Path)
    requires p != [] && IsPath(s, p) && Solid(s.children) && At(s, p).context.Some?
    ensures At(s, p).startAt < At(s, p).endAt
    decreases p
  {
    var c := s.children[p[0]];
    assert s.children == s.children[..p[0]] + ([c] + s.children[p[0] + 1..]);
    SolidAppend(s.children[..p[0]], [c] + s.children[p[0] + 1..]);
    SolidAppend([c], s.children[p[0] + 1..]);
    SolidSingle(c);
    if p[1..] != [] { PathSolid(c, p[1..]); }
  }

  /** Where nothing is to be analyzed no segment is empty. */
  lemma NoEmpty(t: Segment, o: nat, x: int, y: int)
    requires ValidRoot(t) && Solid(t.children) && !Dirty(t.children, x, y) && x <= o < y && o < t.endAt
    ensures NoEmptyAt(t, o)
  {
    forall p | IsPath(t, p) ensures !EmptyAt(At(t, p), o) {
      if EmptyAt(At(t, p), o) && p != [] {
        if At(t, p).IsInvalid() { PathDirty(t, p, x, y); } else { PathSolid(t, p); }
      }
    }
  }

  // ----- the first invalid segment -----

  ghost predicate IsFirstInvalid(t: Segment, r: Option<Path>) {
    if r.None? then
      forall x, y :: !Dirty(t.children, x, y)
    else
      && r.value != [] && IsPath(t, r.value) && At(t, r.value).IsInvalid()
      && 0 <= At(t, r.value).startAt <= At(t, r.value).endAt <= t.endAt
      && forall x, y :: Dirty(t.children, x, y) ==> At(t, r.value).startAt < y
  }

  /** `get_invalid_segment`: where the first invalid segment begins. */
  method FirstInvalid(t: Segment) returns (r: Option<Path>)
    requires ValidRoot(t)
    ensures IsFirstInvalid(t, r)
  {
    FirstListed(t);
    var ps := InvalidPaths(t);
    r := if ps == [] then None else Some(ps[0]);
  }

  /** It is the head of the list. */
  lemma FirstListed(t: Segment)
    requires ValidRoot(t)
    ensures var ps := InvalidPaths(t); IsFirstInvalid(t, if ps == [] then None else Some(ps[0]))
  {
    var ps := InvalidPaths(t);
    ListedPaths(t);
    if ps != [] { WithinSegment(t, ps[0]); }
    forall x, y | Dirty(t.children, x, y) ensures ps != [] && At(t, ps[0]).startAt < y {
      var p := DirtyPath(t, t.children, 0, x, y);
      InvalidAreListed(t, p);
      var j :| 0 <= j < |ps| && ps[j] == p;
      if j > 0 {
        InvalidSorted(t, 0, j);
        WithinSegment(t, ps[0]);
      }
    }
  }

  lemma {:induction false} DirtyPath(s: Segment, cs: seq<Segment>, i: nat, x: int, y: int) returns (p: Path)
    requires i <= |s.children| && cs == s.children[i..] && Dirty(cs, x, y)
    ensures p != [] && IsPath(s, p) && At(s, p).IsInvalid() && Meets(At(s, p), x, y)
    decreases s, |s.children| - i
  {
    var c := s.children[i];
    if c.IsInvalid() && Meets(c, x, y) {
      p := [i];
    } else if Dirty(c.children, x, y) {
      var q := DirtyPath(c, c.children, 0, x, y);
      p := [i] + q;
    } else {
      p := DirtyPath(s, cs[1..], i + 1, x, y);
    }
  }

  // ----- erasing and analyzing a line -----

  lemma ErasedForStep(t: Segment, text: string, ls: nat)
    requires Sound(t, text) && ls < |text|
    ensures var le := LineEnd(text, ls); var e := Erased(t, ls, le);
      && ValidRoot(e) && e.endAt == |text| && Solid(e.children) && DeepClear(e.children, ls, le)
      && !DirtyLine(e, text, ls) && (le == |text| ==> !Dirty(e.children, ls, le + 1))
      && (forall o :: o < ls || le <= o ==> ContextAt(e, o) == ContextAt(t, o))
      && (forall x, y :: x < y && (y <= ls || le < x) ==> (Dirty(e.children, x, y) <==> Dirty(t.children, x, y)))
      && (forall y :: le < y && Dirty(e.children, le, y) ==> Dirty(t.children, le, y))
      && (forall q :: NonStart(e.children, q) ==> q == le || (NonStart(t.children, q) && (q < ls || le < q)))
  {
    var le := LineEnd(text, ls);
    var e := Erased(t, ls, le);
    ErasedRoot(t, ls, le);
    EraseForestSolid(t.children, 0, t.endAt, ls, le, t.context);
    EraseForestClears(t.children, 0, t.endAt, ls, le, t.context);
    ClearIsClean(e.children, 0, e.endAt, e.context, ls, le, Top(text, le));
    if le == |text| { ClearIsClean(e.children, 0, e.endAt, e.context, ls, le, le + 1); }
    forall o | o < ls || le <= o ensures ContextAt(e, o) == ContextAt(t, o) {
      ErasedRootMarks(t, ls, le, o);
    }
    forall x, y | x < y && (y <= ls || le < x) ensures Dirty(e.children, x, y) <==> Dirty(t.children, x, y) {
      EraseForestDirt(t.children, 0, t.endAt, ls, le, t.context, x, y);
    }
    forall y | le < y && Dirty(e.children, le, y) ensures Dirty(t.children, le, y) {
      EraseForestDirt(t.children, 0, t.endAt, ls, le, t.context, le, y);
    }
    forall q | NonStart(e.children, q) && q != le ensures NonStart(t.children, q) && (q < ls || le < q) {
      EraseForestNonStart(t.children, 0, t.endAt, ls, le, t.context, q);
    }
  }

  /** The erased line, analyzed. */
  lemma SteppedFrom(lang: Language, t: Segment, u: Segment, text: string, ls: nat, c: Context)
    requires lang.Consuming() && Sound(t, text) && ls < |text| && lang.Has(c) && c.IsContainer()
    requires ValidRoot(u)
    requires Labelled(Erased(t, ls, LineEnd(text, ls)), u, ls, LineContexts(lang, c, ls == 0, text[ls..LineEnd(text, ls)]))
    ensures Stepped(lang, t, u, text, ls, c)
    ensures LineEnd(text, ls) == |text| ==> !Dirty(u.children, ls, |text| + 1)
  {
    hide LineContexts, LineEnd, Dirty, NonStart, Erased;
    ErasedForStep(t, text, ls);
  }

  /** The entry state of a line: the deepest segment before it. */
  method EntryState(lang: Language, ghost t: Segment, e: Segment, text: string, ls: nat, le: nat, hint: Option<Path>)
    returns (state: Path, ghost c: Context)
    requires lang.Consuming() && Sound(t, text) && TerminatorsOk(lang, t, text)
    requires ls < |text| && IsLineStart(text, ls) && CleanBefore(t, ls) && le == LineEnd(text, ls)
    requires e == Erased(t, ls, le) && (hint.Some? ==> IsPath(e, hint.value))
    ensures EntryIs(lang, t, ls, c) && Building(e, state, c, ls, le)
  {
    ErasedForStep(t, text, ls);
    if ls == 0 {
      state, c := [], Root;
      OpenAtZero(e, le);
    } else {
      assert text[ls - 1] == '\n';
      NoEmpty(e, ls - 1, 0, ls);
      state := GetSegmentAtOffset(e, hint, ls - 1);
      DeepestMark(e, state, ls - 1);
      if ContextAt(t, ls - 1) == None { InvalidIsDirty(t.children, ls - 1, Own(t), 0, ls); }
      c := ContextAt(t, ls - 1).value;
      OpenAtStart(e, state, ls, le);
      OpenIsPath(e, state, ls, le);
    }
  }

  /** Erase, look up the state, analyze. */
  method AnalyzeLineAt(lang: Language, t: Segment, text: string, ls: nat, hint: Path, childHint: nat)
    returns (u: Segment, state: Path, ghost c: Context)
    requires lang.Consuming() && Sound(t, text) && TerminatorsOk(lang, t, text)
    requires ls < |text| && IsLineStart(text, ls) && CleanBefore(t, ls)
    ensures EntryIs(lang, t, ls, c) && Stepped(lang, t, u, text, ls, c) && TerminatorsOk(lang, u, text)
    ensures LineEnd(text, ls) == |text| ==> !Dirty(u.children, ls, |text| + 1)
    ensures Building(u, state, LineExit(lang, c, ls == 0, text[ls..LineEnd(text, ls)]), LineEnd(text, ls), LineEnd(text, ls))
    ensures NoMarkLost(t, u, text, LineEnd(text, ls)) <==> MarkHolds(t, text, LineEnd(text, ls))
  {
    var le := LineEnd(text, ls);
    u := TreeUpdate.EraseSegments(t, ls, le, childHint);
    var h := if IsPath(u, hint) then Some(hint) else None;
    state, c := EntryState(lang, t, u, text, ls, le, h);
    u, state := AnalyzeLine(lang, u, state, c, text[ls..le], ls, childHint);
    SteppedFrom(lang, t, u, text, ls, c);
    StepTerminators(lang, t, u, text, ls, c);
    MarkLost(t, u, text, ls, LineContexts(lang, c, ls == 0, text[ls..le]));
  }

  // ----- marks at the start of the next line -----

  /** Erasing and analyzing a line takes the mark away from the next one exactly if it
      does not hold. */
  lemma MarkLost(t: Segment, u: Segment, text: string, ls: nat, labels: seq<Context>)
    requires Sound(t, text) && ls < |text| && |labels| == LineEnd(text, ls) - ls
    requires Labelled(Erased(t, ls, LineEnd(text, ls)), u, ls, labels)
    ensures NoMarkLost(t, u, text, LineEnd(text, ls)) <==> MarkHolds(t, text, LineEnd(text, ls))
  {
    var le := LineEnd(text, ls);
    if le < |text| {
      EraseForestPast(t.children, 0, t.endAt, ls, le, t.context, Top(text, LineEnd(text, le)));
    }
  }

  // ----- comparing with what follows -----

  /** Whether the first invalid segment begins in the line at `le`. */
  method NextLineInvalid(u: Segment, text: string, le: nat, first: Option<Path>) returns (r: bool)
    requires Sound(u, text) && le <= |text| && (le == |text| || IsLineStart(text, le)) && CleanBefore(u, le)
    requires IsFirstInvalid(u, first)
    ensures le < |text| ==> (r <==> DirtyLine(u, text, le))
    ensures r ==> first.Some?
  {
    if first.None? {
      return false;
    }
    var s := At(u, first.value);
    r := LineStart(text, s.startAt) == le;
    if le < |text| {
      LineOf(text, s.startAt);
      if r {
        PathDirty(u, first.value, le, Top(text, LineEnd(text, le)));
      } else if DirtyLine(u, text, le) {
        FirstBeyond(u, text, first.value, le);
      }
    }
  }

  /** The first invalid segment begins in the first line that has one. */
  lemma FirstBeyond(u: Segment, text: string, p: Path, le: nat)
    requires ValidRoot(u) && u.endAt == |text| && le < |text| && IsLineStart(text, le) && CleanBefore(u, le)
    requires p != [] && IsPath(u, p) && At(u, p).IsInvalid() && 0 <= At(u, p).startAt <= At(u, p).endAt <= |text|
    requires At(u, p).startAt < Top(text, LineEnd(text, le))
    ensures LineStart(text, At(u, p).startAt) == le
  {
    var o := At(u, p).startAt;
    if o < le { PathDirty(u, p, 0, le); }
    StartAfter(text, le, o);
    LineOf(text, o);
    NotPast(text, le, LineStart(text, o));
  }

  lemma NotPast(text: string, a: nat, b: nat)
    requires a <= b <= |text| && a < |text| && IsLineStart(text, a) && IsLineStart(text, b) && b < Top(text, LineEnd(text, a))
    ensures a == b
  {
    if a < b { LinesBefore(text, a, b); }
  }

  // ----- the states at the end of a line -----

  /** The state ends where the line ends, unless it is the toplevel segment. */
  lemma {:induction false} OpenEnds(s: Segment, path: Path, x: int, le: int)
    requires Open(s, path, x, le) && IsPath(s, path) && path != []
    ensures At(s, path).endAt == x
    decreases path
  {
    if path[1..] != [] { OpenEnds(s.children[path[0]], path[1..], x, le); }
  }

  /** `segment_merge` for the state and the next character's segment: the assertions
      in it hold, and merging changes nothing that is known of the text. */
  lemma MergeStates(u: Segment, text: string, le: nat, p: Path, q: Path)
    requires Sound(u, text) && le < |text| && !DirtyLine(u, text, le)
    requires Open(u, p, le, le) && IsPath(u, p) && p != [] && IsDeepest(u, q, le)
    requires At(u, p).context.Some? && At(u, p).context == At(u, q).context
    ensures p[0] + 1 < |u.children| && Joinable(u.children[p[0]], u.children[p[0] + 1], |p| - 1)
    ensures var v := Merged(u, p[0], |p| - 1);
      Sound(v, text) && MergedDirt(u.children, v.children) && forall o :: ContextAt(v, o) == ContextAt(u, o)
  {
    hide Dirty, MergedDirt, Open, NothingEmpty, MarkIn, Merged, LineEnd;
    if Dirty(u.children, le, le + 1) {
      DirtyWiden(u.children, le, le + 1, le, Top(text, LineEnd(text, le)));
    }
    CleanNothingEmpty(u.children, le);
    MergeApplies(u, p, q, le);
    MergedShape(u, p[0], |p| - 1);
    MergedRootDirt(u, p[0], |p| - 1);
    forall o ensures ContextAt(Merged(u, p[0], |p| - 1), o) == ContextAt(u, o) {
      MergedContexts(u, p[0], |p| - 1, o);
    }
  }

  /** The comparison at the end of a line: the segment of the next character against
      the state.  They are the same segment, or the next line is to be invalidated, or
      the two are merged. */
  method Compare(u: Segment, text: string, le: nat, state: Path, hint: Option<Path>, ghost x: Context)
    returns (v: Segment, need: bool)
    requires Sound(u, text) && 0 < le <= |text| && (le < |text| ==> !DirtyLine(u, text, le))
    requires Building(u, state, x, le, le) && (hint.Some? ==> IsPath(u, hint.value))
    ensures Sound(v, text) && MergedDirt(u.children, v.children)
    ensures forall o :: ContextAt(v, o) == ContextAt(u, o)
    ensures need ==> v == u && (le == |text| ==> x != Root) && (le < |text| ==> x != Root || ContextAt(u, le) != Some(Root))
    ensures !need && x == Root ==> v == u && (le < |text| ==> ContextAt(u, le) == Some(Root))
    ensures !need && x != Root ==> le < |text| && state != [] && At(u, state).IsContainer() && !At(u, state).isStart
  {
    v, need := u, false;
    if le < |text| {
      NoEmpty(u, le, le, Top(text, LineEnd(text, le)));
    }
    var found := GetSegmentAtOffset(u, hint, le);
    PathDepth(u, state);
    if le < |text| {
      DeepestMark(u, found, le);
      if ContextAt(u, le) == None { InvalidIsDirty(u.children, le, Own(u), le, Top(text, LineEnd(text, le))); }
      PathDepth(u, found);
    }
    assert x == Root <==> state == [];
    assert state == [] ==> At(u, state).isStart;
    if found == state {
      if state != [] { OpenEnds(u, state, le, le); }
      return;
    }
    if At(u, found).context != At(u, state).context || At(u, state).isStart {
      need := true;
      return;
    }
    OpenIsPath(u, state, le, le);
    MergeStates(u, text, le, state, found);
    v := Merged(u, state[0], |state| - 1);
  }
}
