/** Batches of edits of an analyzed text: exactly when the analysis that follows gives
    what one scan of the new text gives. */
module EditRuns {
  import opened Wrappers
  import opened Contexts
  import opened Language
  import opened LineAnalysis
  import opened Lines
  import opened SegmentTree
  import opened SegmentRemove
  import opened InvalidRegion
  import opened Labelling
  import opened Dirt
  import opened Consistency
  import opened LineStep
  import opened EditStep
  import opened OpenEnd
  import opened Account
  import opened SyntaxEnd
  import opened UpdateSyntax
  import opened Engine
  import opened TimeSlices
  import opened Interleaving
  import opened Interruption
  import opened DirtMoves
  import opened TreeUpdate

  // ----- what a batch of edits can miss -----

  /** The line right after the region of a batch is left with wrong contexts.  It has
      text and was no line of its own before, or the first one; in the new text it
      begins in the toplevel context, and so did the rest of the old line; and as a line
      of its own it has other contexts than as the rest of that line. */
  ghost predicate RegionMissed(lang: Language, s: string, x: string, start: int, end: int, d: int)
    requires lang.Consuming()
  {
    && 0 <= start < end < |x| && 0 <= end - d && |x| == |s| + d
    && IsLineStart(x, end) && x[end] != '\n' && !(0 < end - d && IsLineStart(s, end - d))
    && Scan(lang, x, 0, Root)[end - 1] == Root && Scan(lang, s, 0, Root)[end - d] == Root
    && !SameAsRest(lang, s, x, end, d)
  }

  /** The line at `end` of `x` has as a line of its own the contexts it had in `s`. */
  ghost predicate SameAsRest(lang: Language, s: string, x: string, end: int, d: int)
    requires lang.Consuming() && 0 <= end < |x| && 0 <= end - d && |x| == |s| + d
  {
    LineContexts(lang, Root, end == 0, x[end..LineEnd(x, end)]) == Scan(lang, s, 0, Root)[end - d..LineEnd(x, end) - d]
  }

  // ----- the line at the end of the region -----

  lemma {:induction false} TouchCovers(cs: seq<Segment>, o: int, y: int)
    requires HasInvalid(cs, o, o) && o < y && !Dirty(cs, o, y)
    ensures HasInvalid(cs, o - 1, o)
    decreases cs
  {
    if cs[0].IsInvalid() && cs[0].startAt <= o && o <= cs[0].endAt {
    } else if HasInvalid(cs[0].children, o, o) {
      TouchCovers(cs[0].children, o, y);
    } else {
      TouchCovers(cs[1..], o, y);
    }
  }

  lemma CleanChar(t: Segment, s: string, o: nat)
    requires Sound(t, s) && AllClean(t, s) && o < |s|
    ensures ContextAt(t, o).Some?
  {
    LineOf(s, o);
    var a := LineStart(s, o);
    if ContextAt(t, o) == None {
      InvalidIsDirty(t.children, o, Own(t), a, Top(s, LineEnd(s, a)));
    }
  }

  /** A line terminator right before the region keeps its context. */
  lemma TerminatorKept(lang: Language, t: Segment, u: Segment, s: string, x: string, start: int, end: int, d: int)
    requires Edited(t, u, s, x, start, end, d) && AllClean(t, s) && TerminatorsOk(lang, t, s)
    requires 0 < start && x[start - 1] == '\n'
    ensures ContextAt(u, start - 1).Some?
  {
    assert KeptOrLost(ContextAt(u, start - 1), t, start - 1, start, end - d);
    assert x[..start][start - 1] == s[..start][start - 1];
    CleanChar(t, s, start - 1);
  }

  /** The line right after a region without text is always to be analyzed. */
  lemma EmptyRegionMarks(lang: Language, t: Segment, u: Segment, s: string, x: string, start: int, end: int, d: int)
    requires Edited(t, u, s, x, start, end, d) && AllClean(t, s) && TerminatorsOk(lang, t, s)
    requires LeftAtEnd(u, x, end)
    ensures start < end
  {
    if start == end {
      hide SoundUpdate, Follows, AllClean, Sound, Solid;
      LineBeforeEnd(t, u, s, x, start, end, d);
      TerminatorKept(lang, t, u, s, x, start, end, d);
      UpdateTouches(t, u, start, end, d);
      TouchCovers(u.children, end, Top(x, LineEnd(x, end)));
      InvalidMarks(u.children, 0, u.endAt, u.context, end - 1, end, end - 1, Own(u));
    }
  }

  lemma UpdateTouches(t: Segment, u: Segment, start: int, end: int, d: int)
    requires SoundUpdate(t, u, start, end, d)
    ensures HasInvalid(u.children, start, start)
  {
  }

  /** A character after the region loses its context only if the first one there has a simple
      one. */
  lemma LostTail(t: Segment, u: Segment, s: string, x: string, start: int, end: int, d: int, o: nat)
    requires Edited(t, u, s, x, start, end, d) && AllClean(t, s) && end <= o < |x| && ContextAt(u, o) == None
    ensures var c := ContextAt(t, end - d); c.Some? && c.value.IsSimple()
  {
    hide AllClean, Solid;
    CleanChar(t, s, o - d);
    assert KeptOrLost(ContextAt(u, o), t, o - d, start, end - d);
    SpanBack(t.children, 0, t.endAt, t.context, end - d, o - d, Own(t));
  }

  /** The line right after the region is to be analyzed only in that case. */
  lemma TailLost(t: Segment, u: Segment, s: string, x: string, start: int, end: int, d: int)
    requires Edited(t, u, s, x, start, end, d) && AllClean(t, s) && start < end < |x| && IsLineStart(x, end) && DirtyLine(u, x, end)
    requires OneEdit(t, u, d, false) && InvalidCount(t.children) == 0 && Sound(u, x)
    ensures var c := ContextAt(t, end - d); c.Some? && c.value.IsSimple()
  {
    hide Edited;
    FilledLine(u, x, end);
    var o: nat :| end <= o < LineEnd(x, end) && ContextAt(u, o) == None;
    LostTail(t, u, s, x, start, end, d, o);
  }

  // ----- an analyzed tree -----

  /** What is known of an analyzed tree in which no line is missed. */
  ghost predicate Settled(lang: Language, t: Segment, s: string)
    requires lang.Consuming()
  {
    && Sound(t, s) && Consistent(lang, t, s, -1, {}) && EndSettled(lang, t, s, -1, {}) && AllClean(t, s)
  }

  /** The rest of an old line has the contexts of the scan, unless the last line is torn. */
  lemma RestIsScan(lang: Language, t: Segment, s: string, x: string, end: int, d: int, o: nat)
    requires lang.Consuming() && Settled(lang, t, s) && 0 <= end <= o < LineEndFrom(x, end) && 0 <= end - d && |x| == |s| + d && x[end..] == s[end - d..]
    requires LineEndFrom(x, end) < |x| || !EndIsOpen(lang, s)
    ensures ContextAt(t, o - d) == Some(Scan(lang, s, 0, Root)[o - d])
  {
    hide Consistent, EndSettled, Scan, EndIsOpen, AllClean;
    if EndIsOpen(lang, s) {
      var b := LineEndFrom(x, end) - 1;
      assert x[end..][b - end] == s[end - d..][b - end];
      AfterTerminator(s, b - d);
      PrefixIsScan(lang, t, s, {}, o - d);
    } else {
      SettledIsScan(lang, t, s);
    }
  }

  function LineEndFrom(x: string, end: int): (r: nat)
    ensures 0 <= end < |x| ==> end < r <= |x| && (r < |x| ==> x[r - 1] == '\n')
    ensures !(0 <= end < |x|) ==> r == 0
  {
    if 0 <= end < |x| then LineEnd(x, end) else 0
  }

  lemma AfterTerminator(s: string, b: nat)
    requires b + 1 < |s| && s[b] == '\n'
    ensures b < LastLine(s)
  {
  }

  lemma SettledIsScan(lang: Language, t: Segment, s: string)
    requires lang.Consuming() && Settled(lang, t, s) && !EndIsOpen(lang, s)
    ensures IsScan(lang, t, s)
  {
    hide Consistent, EndSettled, Scan, EndIsOpen, AllClean;
    MissedTheorem(lang, t, s, {});
  }

  // ----- the line at the end of the region -----

  lemma EditedTail(t: Segment, u: Segment, s: string, x: string, start: int, end: int, d: int)
    requires Edited(t, u, s, x, start, end, d)
    ensures Sound(t, s) && 0 <= start <= end <= |x| && 0 <= end - d && |x| == |s| + d && x[end..] == s[end - d..]
  {
  }

  /** Left as it is, it is as the toplevel analysis has it exactly if it is the same as the rest
      of the old line. */
  lemma KeptIsSame(lang: Language, t: Segment, u: Segment, s: string, x: string, start: int, end: int, d: int)
    requires lang.Consuming() && Settled(lang, t, s) && Edited(t, u, s, x, start, end, d) && LeftAtEnd(u, x, end)
    requires LineEnd(x, end) < |x| || !EndIsOpen(lang, s)
    ensures ContextAt(u, end) == Some(Scan(lang, s, 0, Root)[end - d])
    ensures LineIs(lang, u, x, end, Root) <==> SameAsRest(lang, s, x, end, d)
  {
    hide Edited, Settled, Scan, EndIsOpen, SameAsRest, LineIs, ContextAt, DirtyLine;
    EditedTail(t, u, s, x, start, end, d);
    LineKept(t, u, s, x, start, end, d, end);
    forall o | end <= o < LineEnd(x, end) ensures ContextAt(u, o) == Some(Scan(lang, s, 0, Root)[o - d]) {
      RestIsScan(lang, t, s, x, end, d, o);
    }
    SameLabels(lang, u, s, x, end, d);
  }

  lemma SameLabels(lang: Language, u: Segment, s: string, x: string, end: int, d: int)
    requires lang.Consuming() && 0 <= end < |x| && 0 <= end - d && |x| == |s| + d
    requires forall o :: end <= o < LineEnd(x, end) ==> ContextAt(u, o) == Some(Scan(lang, s, 0, Root)[o - d])
    ensures LineIs(lang, u, x, end, Root) <==> SameAsRest(lang, s, x, end, d)
  {
    hide LineContexts, Scan, ContextAt;
    var line := x[end..LineEnd(x, end)];
    var labels, rest := LineContexts(lang, Root, end == 0, line), Scan(lang, s, 0, Root)[end - d..LineEnd(x, end) - d];
    forall i | 0 <= i < |line| ensures ContextAt(u, end + i) == Some(rest[i]) {
      assert end + i - d == end - d + i;
    }
    if LineIs(lang, u, x, end, Root) {
      forall i | 0 <= i < |line| ensures labels[i] == rest[i] {
        assert ContextAt(u, end + i) == Some(labels[end + i - end]);
      }
      assert labels == rest;
    }
    if labels == rest {
      forall o | end <= o < LineEnd(x, end) ensures ContextAt(u, o) == Some(labels[o - end]) {
        assert ContextAt(u, end + (o - end)) == Some(rest[o - end]);
      }
    }
  }

  /** In a tree with everything analyzed before the region, no beginning is lost but where
      something is to be analyzed. */
  lemma CleanEditRegular(t: Segment, u: Segment, s: string, x: string, start: int, end: int, d: int)
    requires Edited(t, u, s, x, start, end, d) && AllClean(t, s) && Regular(t, s)
    ensures Regular(u, x)
  {
    hide Edited;
    forall q ensures !Stray(u, x, q, -1) {
      if Stray(u, x, q, -1) { CleanEditStray(t, u, s, x, start, end, d, q); }
    }
  }

  lemma CleanEditStray(t: Segment, u: Segment, s: string, x: string, start: int, end: int, d: int, q: int)
    requires Edited(t, u, s, x, start, end, d) && AllClean(t, s) && Regular(t, s)
    ensures !Stray(u, x, q, -1)
  {
    if NonStart(u.children, q) {
      NonStartNotRoot(u, q);
      if q < start {
        NoneBegins(t, s, q);
      } else if q <= end {
        StrayInside(t, u, s, x, start, end, d, q);
      } else {
        NoneBegins(t, s, q - d);
      }
    }
  }

  lemma NoneBegins(t: Segment, s: string, q: int)
    requires AllClean(t, s) && Regular(t, s)
    ensures !NonStart(t.children, q)
  {
    assert !Stray(t, s, q, -1);
  }

  /** The line right after the region, if it is left as it is, is the first that may go wrong. */
  lemma EndIsLeast(t: Segment, u: Segment, s: string, x: string, start: int, end: int, d: int)
    requires Edited(t, u, s, x, start, end, d) && LeftAtEnd(u, x, end) && Regular(u, x)
    ensures Least(u, x, {end}, {}, end) && Doubt(u, x, {end}, end) && DirtyLine(u, x, PreviousLine(x, end))
  {
    hide Stray, MarkHolds;
    LineBeforeEnd(t, u, s, x, start, end, d);
  }

  /** It is wrong in the end exactly by the texts. */
  lemma EndDecided(lang: Language, t: Segment, u: Segment, r: Segment, s: string, x: string, start: int, end: int, d: int, left: set<int>)
    requires lang.Consuming() && Settled(lang, t, s) && Edited(t, u, s, x, start, end, d) && LeftAtEnd(u, x, end) && Regular(u, x)
    requires LineEnd(x, end) < |x| || !EndIsOpen(lang, s)
    requires x[end] != '\n' && !(0 < end - d && IsLineStart(s, end - d)) && start < end
    requires Updated(lang, u, r, x, {end}, left, {}) && InvalidCount(r.children) == 0
    ensures RegionMissed(lang, s, x, start, end, d) ==> Wrong(lang, r, x, end)
    ensures end in left && !RegionMissed(lang, s, x, start, end, d) ==> 0 < end && ContextAt(r, end - 1) == Some(Root) && LineIs(lang, r, x, end, Root)
  {
    hide Edited, Settled, Scan, EndIsOpen, SameAsRest, LineIs, Wrong, Updated, Least, Doubt, Regular, AnalyzedTo, DirtyLine, ContextAt, Dirty, LineEnd, CleanBefore, InvalidCount, AnalyzedFrom;
    EditedTail(t, u, s, x, start, end, d);
    EndIsLeast(t, u, s, x, start, end, d);
    UpdatedClean0(lang, u, r, x, {end}, left);
    FaultDecides(lang, u, r, x, {end}, left, {}, end);
    KeptIsSame(lang, t, u, s, x, start, end, d);
    BeforeIsRight(lang, u, r, x, {end}, left, {}, end);
    ScanFrom(lang, r, x, 0, Root, end - 1);
    if end in left {
      KeptRoot(lang, u, r, x, left, end);
    }
  }

  lemma UpdatedClean0(lang: Language, u: Segment, r: Segment, x: string, stale: set<int>, left: set<int>)
    requires lang.Consuming() && Updated(lang, u, r, x, stale, left, {}) && InvalidCount(r.children) == 0
    ensures (forall y :: CleanBefore(r, y)) && AllClean(r, x)
  {
    EndClean(r, x);
  }

  lemma KeptRoot(lang: Language, u: Segment, r: Segment, x: string, left: set<int>, end: int)
    requires lang.Consuming() && Updated(lang, u, r, x, {end}, left, {}) && Doubt(u, x, {end}, end) && DirtyLine(u, x, PreviousLine(x, end))
    requires CleanBefore(r, end) && end in left
    ensures ContextAt(r, end - 1) == Some(Root) && ContextAt(u, end) == Some(Root) && EntryIs(lang, r, end, Root)
    ensures LineIs(lang, r, x, end, Root) <==> LineIs(lang, u, x, end, Root)
  {
    hide Consistent, EndSettled, Behind, Beyond, Stray, MarkHolds, CleanFrom, SameFrom, LineContexts;
    assert DoubtEnds(u, r, x, left, end);
    assert LineIs(lang, r, x, end, Root) <==> LineIs(lang, u, x, end, Root);
  }

  // ----- a missed line that is right -----

  /** A line that is right need not be counted as missed. */
  lemma RightIsConsistent(lang: Language, r: Segment, x: string, m: nat)
    requires lang.Consuming() && Consistent(lang, r, x, -1, {m}) && 0 < m < |x| && IsLineStart(x, m)
    requires ContextAt(r, m - 1) == Some(Root) && LineIs(lang, r, x, m, Root)
    ensures Consistent(lang, r, x, -1, {})
  {
    hide LineIs, Torn, DirtyLine;
    forall a | 0 <= a < |x| && IsLineStart(x, a) && !Pending(r, x, a, -1) ensures LineOk(lang, r, x, a, -1) {
      if a == m { RootEntry(lang, r, x, m); }
    }
  }

  /** The end stays settled when the last line is that of a settled text. */
  lemma EndStaysSettled(lang: Language, t: Segment, u: Segment, r: Segment, s: string, x: string, start: int, end: int, d: int, left: set<int>)
    requires lang.Consuming() && Settled(lang, t, s) && Edited(t, u, s, x, start, end, d) && LeftAtEnd(u, x, end)
    requires EndSettled(lang, r, x, -1, left) && left <= {end} && AllClean(r, x) && KeptLine(u, r, x, end)
    ensures EndSettled(lang, r, x, -1, {})
  {
    hide Edited, Consistent, AllClean, ContextAt, OpenLabel;
    if LastLine(x) == end {
      EditedTail(t, u, s, x, start, end, d);
      LineKept(t, u, s, x, start, end, d, end);
      LastCharClean(t, s);
      assert ContextAt(r, |x| - 1) == ContextAt(u, |x| - 1) == ContextAt(t, |x| - 1 - d);
      assert |x| - 1 - d == |s| - 1;
    }
  }

  lemma LastCharClean(t: Segment, s: string)
    requires Sound(t, s) && AllClean(t, s) && s != ""
    ensures ContextAt(t, |s| - 1).Some? && !Pending(t, s, LastLine(s), -1)
  {
    CleanChar(t, s, |s| - 1);
  }

  // ----- the lines that a batch may leave wrong, by the texts -----

  /** Lines before the region and after it that might be wrong before it; and the line right
      after it, if it has text and was no line of its own, or the first, or might be wrong. */
  function TextMissed(s: string, x: string, r: Region, ms: set<int>): set<int> {
    set a | 0 <= a < |x| && IsLineStart(x, a) &&
      (if a < r.end then a in ms && Top(x, LineEnd(x, a)) <= r.start
       else if a == r.end then
         r.start < r.end && x[a] != '\n' && (r.end - r.delta in ms || !(0 < r.end - r.delta && IsLineStart(s, r.end - r.delta)))
       else a - r.delta in ms)
  }

  lemma MissedByText(lang: Language, t: Segment, u: Segment, s: string, x: string, r: Region, missed: set<int>, ms: set<int>)
    requires Edited(t, u, s, x, r.start, r.end, r.delta) && AllClean(t, s) && TerminatorsOk(lang, t, s) && missed <= ms
    ensures EditMissed(t, u, s, x, r.end, r.delta, missed) <= TextMissed(s, x, r, ms)
  {
    hide Edited, Sound, Dirty, TerminatorsOk, AllClean;
    forall a | a in EditMissed(t, u, s, x, r.end, r.delta, missed) ensures a in TextMissed(s, x, r, ms) {
      if a < r.end {
        CleanLinePlace(t, u, s, x, r.start, r.end, r.delta, a);
      } else if a == r.end {
        EmptyRegionMarks(lang, t, u, s, x, r.start, r.end, r.delta);
        CleanWasLine(t, s, r.end, r.delta);
        EditedTail(t, u, s, x, r.start, r.end, r.delta);
      } else {
        CleanWasLine(t, s, r.end, r.delta);
      }
    }
  }

  lemma CleanWasLine(t: Segment, s: string, end: int, d: int)
    requires AllClean(t, s)
    ensures !OldLineDirty(t, s, end, d)
    ensures WasLine(t, s, end, d) <==> 0 < end - d < |s| && IsLineStart(s, end - d)
  {
  }

  // ----- whole runs -----

  /** What can be said of a fully analyzed buffer: no line is missed, so that it is the scan
      exactly if its end is not open; or it is the scan up to the first of some lines; or it is
      up to a line that is wrong. */
  datatype Standing = Exact | Partly(lines: set<int>) | WrongAt(line: int, lines: set<int>)
  {
    function Lines(): set<int> {
      if Exact? then {} else lines
    }
  }

  ghost predicate Holds(v: Standing, lang: Language, t: Segment, s: string, missed: set<int>)
    requires lang.Consuming()
  {
    missed <= v.Lines() && (v.WrongAt? ==> Wrong(lang, t, s, v.line))
  }

  /** The standing after a batch of edits, by the texts and the region alone. */
  ghost function Next(v: Standing, lang: Language, s: string, x: string, r: Region): Standing
    requires lang.Consuming()
  {
    var ms := TextMissed(s, x, r, v.Lines());
    if v.WrongAt? && 0 <= v.line < |s| && Top(s, LineEnd(s, v.line)) <= r.start then WrongAt(v.line, ms)
    else if ms == {} then Exact
    else if !v.Exact? || (EndIsOpen(lang, s) && LineEndFrom(x, r.end) == |x|) then Partly(ms)
    else if RegionMissed(lang, s, x, r.start, r.end, r.delta) then WrongAt(r.end, ms)
    else Exact
  }

  /** A buffer with everything analyzed about which the standing is known. */
  ghost predicate Known(e: Engine, v: Standing)
    reads e
  {
    e.Valid() && e.AllAnalyzed() && Regular(e.root, e.text) && Holds(v, e.lang, e.root, e.text, e.missed)
  }

  /** What a standing says. */
  ghost predicate Says(v: Standing, lang: Language, t: Segment, text: string)
    requires lang.Consuming()
  {
    && (v.Exact? ==> (IsScan(lang, t, text) <==> !EndIsOpen(lang, text)))
    && (v.WrongAt? ==> !IsScan(lang, t, text) && forall o :: 0 <= o < v.line && o < |text| ==> ContextAt(t, o) == Some(Scan(lang, text, 0, Root)[o]))
    && (forall o :: 0 <= o < |text| && o < LastLine(text) && (forall m :: m in v.Lines() ==> m > o) ==>
          ContextAt(t, o) == Some(Scan(lang, text, 0, Root)[o]))
  }

  lemma KnownSays(e: Engine, v: Standing)
    requires Known(e, v)
    ensures Says(v, e.lang, e.root, e.text)
  {
    hide Consistent, EndSettled, Sound, IsScan, EndIsOpen, Scan, Wrong, Coalesced, Regular, AllRight;
    CountIsClean(e.root, e.text);
    IncrementalIsScan(e);
    forall o | 0 <= o < |e.text| && o < LastLine(e.text) && (forall m :: m in v.Lines() ==> m > o)
      ensures ContextAt(e.root, o) == Some(Scan(e.lang, e.text, 0, Root)[o])
    {
      PrefixIsScan(e.lang, e.root, e.text, e.missed, o);
    }
    if v.WrongAt? {
      WrongIsNotScan(e.lang, e.root, e.text, v.line);
      forall o | 0 <= o < v.line && o < |e.text| ensures ContextAt(e.root, o) == Some(Scan(e.lang, e.text, 0, Root)[o]) {
        BeforeWrong(e.lang, e.root, e.text, v.line, o);
      }
    }
  }

  lemma BeforeWrong(lang: Language, t: Segment, text: string, m: int, o: nat)
    requires lang.Consuming() && Wrong(lang, t, text, m) && o < m && o < |text|
    ensures ContextAt(t, o) == Some(Scan(lang, text, 0, Root)[o])
  {
    hide Scan, LineIs, Right;
    forall a: nat, e: Context | a < |text| && a < o + 1 && IsLineStart(text, a) && EntryIs(lang, t, a, e) ensures LineIs(lang, t, text, a, e) {
    }
    ScanFrom(lang, t, text, 0, Root, o);
  }

  // ----- one batch -----

  /** What the analysis of a batch has come to. */
  ghost predicate Come(lang: Language, u: Segment, r: Segment, x: string, stale: set<int>, left: set<int>)
    requires lang.Consuming()
  {
    && Sound(u, x) && Regular(u, x) && Updated(lang, u, r, x, stale, left, {}) && left <= stale && InvalidCount(r.children) == 0
  }

  lemma ExactNext(lang: Language, t: Segment, u: Segment, r: Segment, s: string, x: string, region: Region, left: set<int>)
    requires lang.Consuming() && Settled(lang, t, s) && InvalidCount(t.children) == 0
    requires Edited(t, u, s, x, region.start, region.end, region.delta) && OneEdit(t, u, region.delta, region.start == region.end)
    requires Come(lang, u, r, x, EditMissed(t, u, s, x, region.end, region.delta, {}), left)
    ensures var next := Next(Exact, lang, s, x, region);
      && Holds(next, lang, r, x, if next.Exact? then {} else left)
      && (next.Exact? ==> Consistent(lang, r, x, -1, {}) && EndSettled(lang, r, x, -1, {}))
  {
    hide Consistent, EndSettled, Edited, EditMissed, OneEdit, EndIsOpen, RegionMissed, Wrong, Updated, AllClean, LeftAtEnd, TextMissed, Sound, Regular;
    var stale := EditMissed(t, u, s, x, region.end, region.delta, {});
    SettledTerminators(lang, t, s);
    MissedByText(lang, t, u, s, x, region, {}, {});
    AnalyzedMissed(t, u, s, x, region.start, region.end, region.delta);
    UpdatedEnds(lang, u, r, x, stale, left);
    if stale == {} {
      assert left == {};
      if Next(Exact, lang, s, x, region).WrongAt? { MissedNot(lang, t, u, s, x, region.start, region.end, region.delta); }
    } else if LineEndFrom(x, region.end) < |x| || !EndIsOpen(lang, s) {
      EndFacts(lang, t, u, s, x, region);
      EndNext(lang, t, u, r, s, x, region, left);
    }
  }

  lemma UpdatedEnds(lang: Language, u: Segment, r: Segment, x: string, stale: set<int>, left: set<int>)
    requires lang.Consuming() && Come(lang, u, r, x, stale, left)
    ensures Consistent(lang, r, x, -1, left) && EndSettled(lang, r, x, -1, left)
  {
  }

  lemma EndFacts(lang: Language, t: Segment, u: Segment, s: string, x: string, r: Region)
    requires Edited(t, u, s, x, r.start, r.end, r.delta) && AllClean(t, s) && TerminatorsOk(lang, t, s)
    requires EditMissed(t, u, s, x, r.end, r.delta, {}) == {r.end}
    ensures LeftAtEnd(u, x, r.end) && x[r.end] != '\n' && !(0 < r.end - r.delta && IsLineStart(s, r.end - r.delta)) && r.start < r.end
    ensures TextMissed(s, x, r, {}) == {r.end}
  {
    hide Edited, Sound, Dirty;
    MissedByText(lang, t, u, s, x, r, {}, {});
    assert r.end in EditMissed(t, u, s, x, r.end, r.delta, {});
    EmptyRegionMarks(lang, t, u, s, x, r.start, r.end, r.delta);
    CleanWasLine(t, s, r.end, r.delta);
    EditedTail(t, u, s, x, r.start, r.end, r.delta);
  }

  lemma EndNext(lang: Language, t: Segment, u: Segment, r: Segment, s: string, x: string, region: Region, left: set<int>)
    requires lang.Consuming() && Settled(lang, t, s) && Edited(t, u, s, x, region.start, region.end, region.delta)
    requires LeftAtEnd(u, x, region.end) && x[region.end] != '\n' && region.start < region.end
    requires !(0 < region.end - region.delta && IsLineStart(s, region.end - region.delta)) && TextMissed(s, x, region, {}) == {region.end}
    requires LineEndFrom(x, region.end) < |x| || !EndIsOpen(lang, s)
    requires Come(lang, u, r, x, {region.end}, left)
    ensures var next := Next(Exact, lang, s, x, region);
      && Holds(next, lang, r, x, if next.Exact? then {} else left)
      && (next.Exact? ==> Consistent(lang, r, x, -1, {}) && EndSettled(lang, r, x, -1, {}))
  {
    hide Consistent, EndSettled, Edited, EndIsOpen, RegionMissed, Wrong, Updated, AllClean, TextMissed, Regular, Settled, LineIs, DirtyLine;
    var end := region.end;
    EndDecided(lang, t, u, r, s, x, region.start, end, region.delta, left);
    UpdatedEnds(lang, u, r, x, {end}, left);
    UpdatedClean0(lang, u, r, x, {end}, left);
    if !RegionMissed(lang, s, x, region.start, end, region.delta) {
      if end in left {
        assert left == {end};
        RightIsConsistent(lang, r, x, end);
        EndIsLeast(t, u, s, x, region.start, end, region.delta);
        EndKept(lang, u, r, x, left, end);
        EndStaysSettled(lang, t, u, r, s, x, region.start, end, region.delta, left);
      } else {
        assert left == {};
      }
    }
  }

  lemma EndKept(lang: Language, u: Segment, r: Segment, x: string, left: set<int>, end: int)
    requires lang.Consuming() && Updated(lang, u, r, x, {end}, left, {}) && Doubt(u, x, {end}, end) && CleanBefore(r, end) && end in left
    ensures KeptLine(u, r, x, end)
  {
    hide Consistent, EndSettled, Behind, Beyond, Stray, MarkHolds, CleanFrom, SameFrom;
    assert DoubtEnds(u, r, x, left, end);
  }

  lemma SettledTerminators(lang: Language, t: Segment, s: string)
    requires lang.Consuming() && Settled(lang, t, s)
    ensures TerminatorsOk(lang, t, s)
  {
  }

  /** When `update_tree` misses nothing, the condition does not hold. */
  lemma MissedNot(lang: Language, t: Segment, u: Segment, s: string, x: string, start: int, end: int, d: int)
    requires lang.Consuming() && Settled(lang, t, s) && InvalidCount(t.children) == 0 && Sound(u, x)
    requires Edited(t, u, s, x, start, end, d) && OneEdit(t, u, d, start == end)
    requires EditMissed(t, u, s, x, end, d, {}) == {} && (LineEndFrom(x, end) < |x| || !EndIsOpen(lang, s))
    ensures !RegionMissed(lang, s, x, start, end, d)
  {
    hide Consistent, EndSettled, EndIsOpen, AllClean, Edited, OneEdit, SameAsRest, Sound, Scan;
    if RegionMissed(lang, s, x, start, end, d) {
      AnalyzedMissed(t, u, s, x, start, end, d);
      NotLeftThere(u, x, end);
      TailLost(t, u, s, x, start, end, d);
      EditedTail(t, u, s, x, start, end, d);
      RestIsScan(lang, t, s, x, end, d, end);
    }
  }

  lemma NotLeftThere(u: Segment, x: string, end: int)
    ensures 0 <= end < |x| && IsLineStart(x, end) && !LeftAtEnd(u, x, end) ==> DirtyLine(u, x, end)
  {
  }

  /** A wrong line before the region. */
  lemma WrongNext(lang: Language, t: Segment, u: Segment, r: Segment, s: string, x: string, region: Region, stale: set<int>, left: set<int>, m: int)
    requires lang.Consuming() && Wrong(lang, t, s, m) && TerminatorsOk(lang, t, s)
    requires Edited(t, u, s, x, region.start, region.end, region.delta) && Placed(t, u, region.start, region.end, region.delta)
    requires 0 <= m < |s| && Top(s, LineEnd(s, m)) <= region.start && Come(lang, u, r, x, stale, left)
    ensures Wrong(lang, r, x, m)
  {
    hide Wrong, Updated, Placed, TerminatorsOk, Regular, Dirty, SoundUpdate, Follows;
    WrongEnds(lang, t, s, m);
    var e := LineEnd(s, m);
    BeforeRegion(lang, t, u, s, x, region.start, region.end, region.delta, e);
    WrongMoves(lang, t, u, s, x, region.start, m);
    TextBefore(x, s, region.start, m);
    assert x[..region.start][e - 1] == s[..region.start][e - 1];
    WrongOver(lang, u, r, x, stale, left, {}, m);
  }

  /** The standing after a batch follows from the texts and the region. */
  lemma StandingHolds(v: Standing, lang: Language, t: Segment, u: Segment, r: Segment, s: string, x: string, region: Region, missed: set<int>, left: set<int>)
    requires lang.Consuming() && Holds(v, lang, t, s, missed) && Sound(t, s) && InvalidCount(t.children) == 0
    requires Consistent(lang, t, s, -1, missed) && EndSettled(lang, t, s, -1, missed)
    requires Edited(t, u, s, x, region.start, region.end, region.delta) && Placed(t, u, region.start, region.end, region.delta)
    requires Come(lang, u, r, x, EditMissed(t, u, s, x, region.end, region.delta, missed), left)
    ensures var next := Next(v, lang, s, x, region);
      && Holds(next, lang, r, x, if next.Exact? then {} else left)
      && (next.Exact? ==> Consistent(lang, r, x, -1, {}) && EndSettled(lang, r, x, -1, {}))
  {
    hide Consistent, EndSettled, EndIsOpen, AllClean, Edited, EditMissed, OneEdit, Sound, RegionMissed, Wrong, Updated, TextMissed, Placed, Regular;
    CountIsClean(t, s);
    MissedTerminators(lang, t, s, missed);
    PlacedOnce(t, u, region);
    if v.Exact? {
      assert missed == {};
      ExactNext(lang, t, u, r, s, x, region, left);
    } else {
      MissedByText(lang, t, u, s, x, region, missed, v.Lines());
      UpdatedEnds(lang, u, r, x, EditMissed(t, u, s, x, region.end, region.delta, missed), left);
      if v.WrongAt? && 0 <= v.line < |s| && Top(s, LineEnd(s, v.line)) <= region.start {
        WrongNext(lang, t, u, r, s, x, region, EditMissed(t, u, s, x, region.end, region.delta, missed), left, v.line);
      }
      assert left <= TextMissed(s, x, region, v.Lines());
      if TextMissed(s, x, region, v.Lines()) == {} { assert left == {}; }
    }
  }

  lemma MissedTerminators(lang: Language, t: Segment, s: string, missed: set<int>)
    requires lang.Consuming() && Consistent(lang, t, s, -1, missed)
    ensures TerminatorsOk(lang, t, s)
  {
  }

  lemma PlacedOnce(t: Segment, u: Segment, r: Region)
    requires Placed(t, u, r.start, r.end, r.delta)
    ensures OneEdit(t, u, r.delta, r.start == r.end)
  {
    UpdatedFacts(t, u, r.start, r.end, r.delta);
  }

  /** `update_syntax` until everything is analyzed, with a region of edits that the tree
      does not know about yet. */
  method AnalyzeRegion(e: Engine, hint: nat, hint2: nat, calls: seq<Call>, slices: nat -> nat, ghost v: Standing) returns (ghost next: Standing)
    requires e.Valid() && !e.empty && InvalidCount(e.root.children) == 0 && Allowed(e.text, calls)
    requires Regular(e.root, e.synced) && Holds(v, e.lang, e.root, e.synced, e.missed)
    modifies e
    ensures Known(e, next) && next == Next(v, e.lang, old(e.synced), e.text, old(e.RegionNow())) && e.text == old(e.text)
  {
    hide Consistent, EndSettled, EndIsOpen, Edited, EditMissed, OneEdit, Sound, RegionMissed, Coalesced, Placed, Updated, AllClean, Regular, Holds, Next;
    ghost var t, s, missed, region := e.root, e.synced, e.missed, e.RegionNow();
    e.UpdateTree(hint, hint2);
    ghost var u, stale := e.root, e.missed;
    CountIsClean(t, s);
    CleanEditRegular(t, u, s, e.text, region.start, region.end, region.delta);
    RegionHeld(t, u, e.text, region);
    ghost var swallowed := AnalyzeInSlices(e, calls, slices);
    SinceCome(e, u, stale, swallowed);
    next := Next(v, e.lang, s, e.text, region);
    StandingHolds(v, e.lang, t, u, e.root, s, e.text, region, missed, e.missed);
    if next.Exact? {
      // the whole text is known to be right, but perhaps for an open end
      e.missed := {};
    }
  }

  lemma RegionHeld(t: Segment, u: Segment, x: string, r: Region)
    requires Placed(t, u, r.start, r.end, r.delta) && InvalidCount(t.children) == 0 && Sound(u, x)
    ensures Held(u, x)
  {
    hide Placed, MarkHolds;
    PlacedOnce(t, u, r);
    EditIsHeld(u, x);
  }

  lemma SinceCome(e: Engine, u: Segment, stale: set<int>, swallowed: set<int>)
    requires Since(e, u, stale, swallowed) && e.AllAnalyzed() && Held(u, e.text) && Regular(u, e.text)
    ensures Come(e.lang, u, e.root, e.text, stale, e.missed) && Regular(e.root, e.text)
  {
    hide Consistent, EndSettled, Sound, Updated, Held, Regular, Coalesced;
    HeldOn(e.lang, u, e.root, e.text, stale, e.missed, swallowed);
    NothingBlamed(e.lang, u, e.root, e.text, stale, e.missed);
  }

  /** A buffer that is opened and analyzed. */
  method AnalyzeBuffer(lang: Language, buffer: string, hint: nat, hint2: nat, calls: seq<Call>, slices: nat -> nat)
    returns (e: Engine)
    requires lang.Consuming() && Allowed(buffer, calls)
    ensures fresh(e) && Known(e, Exact) && e.lang == lang && e.text == buffer
    ensures IsScan(lang, e.root, buffer) <==> !EndIsOpen(lang, buffer)
  {
    hide Consistent, EndSettled, Sound, Regular, IsScan, EndIsOpen, Coalesced;
    e := new Engine(lang, buffer);
    EmptyTree(lang, "");
    if buffer != "" {
      ghost var v := AnalyzeRegion(e, hint, hint2, calls, slices, Exact);
    }
    KnownSays(e, Exact);
  }

  /** The region of a batch of edits. */
  function Touched(text: string, edits: seq<Edit>): Region
    requires AllPossible(text, edits)
  {
    Region(true, 0, 0, 0).AfterAll(text, edits)
  }

  lemma TouchedAfter(r: Region, text: string, edits: seq<Edit>)
    requires r.empty && AllPossible(text, edits) && edits != []
    ensures r.AfterAll(text, edits) == Touched(text, edits)
  {
  }

  /** Edits, one after the other. */
  method ApplyEdits(e: Engine, edits: seq<Edit>)
    requires e.Valid() && AllPossible(e.text, edits)
    modifies e`text, e`empty, e`start, e`end, e`delta
    ensures e.Valid() && e.text == ApplyAll(old(e.text), edits)
    ensures e.RegionNow() == old(e.RegionNow()).AfterAll(old(e.text), edits) && (edits != [] ==> !e.empty)
    decreases |edits|
  {
    hide Consistent, EndSettled, Sound, Describes, Region.After;
    if edits != [] {
      match edits[0] {
        case Insertion(offset, s) => e.TextInserted(offset, s);
        case Deletion(offset, length) => e.TextDeleted(offset, length);
      }
      ApplyEdits(e, edits[1..]);
    }
  }

  /** A batch of edits of an analyzed buffer, and the analysis after it: the standing is known
      by the texts and the edits. */
  method EditsAndUpdate(e: Engine, edits: seq<Edit>, hint: nat, hint2: nat, calls: seq<Call>, slices: nat -> nat, ghost v: Standing)
    returns (ghost next: Standing)
    requires Known(e, v) && edits != [] && AllPossible(e.text, edits) && Allowed(ApplyAll(e.text, edits), calls)
    modifies e
    ensures Known(e, next) && e.text == ApplyAll(old(e.text), edits)
    ensures next == Next(v, e.lang, old(e.text), e.text, Touched(old(e.text), edits)) && Says(next, e.lang, e.root, e.text)
  {
    hide Consistent, EndSettled, Sound, Regular, Region.AfterAll, Coalesced, Next, Holds, Says;
    TouchedAfter(e.RegionNow(), e.text, edits);
    ApplyEdits(e, edits);
    next := AnalyzeRegion(e, hint, hint2, calls, slices, v);
    KnownSays(e, next);
  }

  predicate PossibleBatches(text: string, batches: seq<seq<Edit>>)
    decreases |batches|
  {
    batches == [] ||
    (batches[0] != [] && AllPossible(text, batches[0]) && PossibleBatches(ApplyAll(text, batches[0]), batches[1..]))
  }

  function AfterBatches(text: string, batches: seq<seq<Edit>>): string
    requires PossibleBatches(text, batches)
    decreases |batches|
  {
    if batches == [] then text else AfterBatches(ApplyAll(text, batches[0]), batches[1..])
  }

  /** The standing after a whole run. */
  ghost function Outcomes(v: Standing, lang: Language, text: string, batches: seq<seq<Edit>>): Standing
    requires lang.Consuming() && PossibleBatches(text, batches)
    decreases |batches|
  {
    if batches == [] then v
    else
      var x := ApplyAll(text, batches[0]);
      Outcomes(Next(v, lang, text, x, Touched(text, batches[0])), lang, x, batches[1..])
  }

  /** Any run of batches of edits, with the analysis after every batch. */
  method EditBatches(e: Engine, batches: seq<seq<Edit>>, slices: nat -> nat, ghost v: Standing) returns (ghost last: Standing)
    requires Known(e, v) && PossibleBatches(e.text, batches)
    modifies e
    ensures Known(e, last) && e.text == AfterBatches(old(e.text), batches) && last == Outcomes(v, e.lang, old(e.text), batches)
    ensures Says(last, e.lang, e.root, e.text)
    decreases |batches|
  {
    hide Consistent, EndSettled, Sound, Regular, Next, Describes, Says, Holds;
    last := v;
    KnownSays(e, v);
    if batches != [] {
      var hint: nat, hint2: nat := *, *;
      last := EditsAndUpdate(e, batches[0], hint, hint2, [], slices, v);
      last := EditBatches(e, batches[1..], slices, last);
    }
  }

  // ----- when nothing is wrong any more -----

  /** The region meets the old line, or its start. */
  predicate MeetsLine(s: string, start: int, end: int, m: int) {
    0 <= m < |s| && start < Top(s, LineEnd(s, m)) && m <= end
  }

  predicate MayBeWrong(v: Standing, m: int) {
    m in v.Lines() || (v.WrongAt? && m == v.line)
  }

  /** A region that meets every line that may be wrong, and after which no line with text
      begins, leaves nothing missed; in particular one that is the whole text. */
  lemma RegionHeals(v: Standing, lang: Language, s: string, x: string, r: Region)
    requires lang.Consuming() && Coalesced(s, x, r.start, r.end, r.delta)
    requires forall m :: MayBeWrong(v, m) ==> MeetsLine(s, r.start, r.end - r.delta, m)
    requires !(r.start < r.end < |x| && IsLineStart(x, r.end) && x[r.end] != '\n')
    ensures Next(v, lang, s, x, r) == Exact
  {
    hide EndIsOpen, RegionMissed, Top, LineEnd;
    if v.WrongAt? { assert MayBeWrong(v, v.line); }
    forall a ensures a !in TextMissed(s, x, r, v.Lines()) {
      NothingStays(v, s, x, r, a);
    }
    assert TextMissed(s, x, r, v.Lines()) == {};
  }

  lemma NothingStays(v: Standing, s: string, x: string, r: Region, a: int)
    requires Coalesced(s, x, r.start, r.end, r.delta)
    requires forall m :: MayBeWrong(v, m) ==> MeetsLine(s, r.start, r.end - r.delta, m)
    requires !(r.start < r.end < |x| && IsLineStart(x, r.end) && x[r.end] != '\n')
    ensures a !in TextMissed(s, x, r, v.Lines())
  {
    if 0 <= a < r.end && a < |x| && Top(x, LineEnd(x, a)) <= r.start {
      TextBefore(s, x, r.start, a);
      assert MayBeWrong(v, a) ==> MeetsLine(s, r.start, r.end - r.delta, a);
    } else {
      assert MayBeWrong(v, a - r.delta) ==> MeetsLine(s, r.start, r.end - r.delta, a - r.delta);
    }
  }

  // ----- single edits -----

  lemma OneEditAfter(text: string, edit: Edit)
    requires Possible(text, edit)
    ensures AllPossible(text, [edit]) && ApplyAll(text, [edit]) == Apply(text, edit)
    ensures Touched(text, [edit]) == Region(true, 0, 0, 0).After(Apply(text, edit), edit)
  {
    var x := Apply(text, edit);
    var r := Region(true, 0, 0, 0).After(x, edit);
    assert [edit][1..] == [];
    assert r.AfterAll(x, []) == r;
  }

  /** After a single edit no line with text begins at the end of the region. */
  lemma SingleEdit(text: string, edit: Edit)
    requires Possible(text, edit)
    ensures var r, x := Touched(text, [edit]), Apply(text, edit);
      !(0 <= r.start < r.end < |x| && IsLineStart(x, r.end) && x[r.end] != '\n')
  {
    OneEditAfter(text, edit);
  }

  lemma SingleRegion(text: string, edit: Edit)
    requires Possible(text, edit)
    ensures var r := Touched(text, [edit]); Coalesced(text, Apply(text, edit), r.start, r.end, r.delta) && r.start == edit.offset
    ensures var r := Touched(text, [edit]); r.end - r.delta >= if edit.Insertion? then edit.offset else edit.offset + edit.length
  {
    OneEditAfter(text, edit);
    AfterDescribes(Region(true, 0, 0, 0), text, text, edit);
  }

  /** So a single edit of a buffer with no line missed leaves none missed. */
  lemma SingleEditNext(lang: Language, text: string, edit: Edit)
    requires lang.Consuming() && Possible(text, edit)
    ensures Next(Exact, lang, text, Apply(text, edit), Touched(text, [edit])) == Exact
  {
    hide Next, Touched, Apply, Coalesced;
    SingleEdit(text, edit);
    SingleRegion(text, edit);
    SingleHeals(Exact, lang, text, edit);
  }

  lemma SingleHeals(v: Standing, lang: Language, text: string, edit: Edit)
    requires lang.Consuming() && Possible(text, edit)
    requires var r := Touched(text, [edit]); forall m :: MayBeWrong(v, m) ==> MeetsLine(text, r.start, r.end - r.delta, m)
    ensures Next(v, lang, text, Apply(text, edit), Touched(text, [edit])) == Exact
  {
    hide Next, Touched, Apply, MeetsLine;
    SingleEdit(text, edit);
    SingleRegion(text, edit);
    RegionHeals(v, lang, text, Apply(text, edit), Touched(text, [edit]));
  }

  /** In a run of single edits, with the analysis after each, only an open end can ever be
      wrong. */
  lemma {:induction false} SingleEditsExact(lang: Language, text: string, batches: seq<seq<Edit>>)
    requires lang.Consuming() && PossibleBatches(text, batches) && forall i :: 0 <= i < |batches| ==> |batches[i]| == 1
    ensures Outcomes(Exact, lang, text, batches) == Exact
    decreases |batches|
  {
    hide Next;
    if batches != [] {
      var edit := batches[0][0];
      assert batches[0] == [edit];
      OneEditAfter(text, edit);
      SingleEditNext(lang, text, edit);
      SingleEditsExact(lang, Apply(text, edit), batches[1..]);
    }
  }

  /** And a single edit of a line makes good whatever was wrong with it. */
  lemma LineHeals(v: Standing, lang: Language, text: string, edit: Edit)
    requires lang.Consuming() && Possible(text, edit)
    requires forall m :: MayBeWrong(v, m) ==> MeetsLine(text, edit.offset, if edit.Insertion? then edit.offset else edit.offset + edit.length, m)
    ensures Next(v, lang, text, Apply(text, edit), Touched(text, [edit])) == Exact
  {
    hide Next, Touched, Apply, Top, LineEnd, Coalesced;
    SingleRegion(text, edit);
    SingleHeals(v, lang, text, edit);
  }
}
