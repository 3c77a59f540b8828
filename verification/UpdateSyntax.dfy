/** `update_syntax` on values: what it does after `update_tree`, and when the result
    is the analysis of the whole text. */
module UpdateSyntax {
  import opened Wrappers
  import opened Contexts
  import opened Language
  import opened Lines
  import opened SegmentTree
  import opened SegmentRemove
  import opened InvalidExtent
  import opened InvalidList
  import opened InvalidRegion
  import opened Labelling
  import opened Dirt
  import opened Consistency
  import opened LineStep
  import opened EditStep
  import opened SyntaxRound
  import opened Interruption
  import opened OpenEnd
  import opened Account
  import opened SyntaxEnd
  import opened SyntaxLoop
  import TreeUpdate

  /** A new tree is in step with the empty text. */
  lemma EmptyTree(lang: Language, buffer: string)
    requires lang.Consuming()
    ensures var t := Segment(Some(Root), 0, 0, true, []);
      && Sound(t, "") && Consistent(lang, t, "", -1, {}) && EndSettled(lang, t, "", -1, {}) && Regular(t, "")
      && InvalidCount(t.children) == 0
    ensures Coalesced("", buffer, 0, |buffer|, |buffer|)
  {
  }

  // ----- update_tree -----

  /** `update_tree`, with what it means for the analysis. */
  method BringInStep(lang: Language, t: Segment, ghost s: string, x: string, start: int, end: int, delta: int, hint: nat, hint2: nat, ghost missed: set<int>)
    returns (u: Segment, ghost left: set<int>)
    requires lang.Consuming() && Sound(t, s) && Consistent(lang, t, s, -1, missed) && EndSettled(lang, t, s, -1, missed)
    requires Coalesced(s, x, start, end, delta)
    ensures Edited(t, u, s, x, start, end, delta) && Placed(t, u, start, end, delta)
    ensures Sound(u, x) && left == EditMissed(t, u, s, x, end, delta, missed)
    ensures Consistent(lang, u, x, -1, left) && EndSettled(lang, u, x, -1, left)
  {
    u := TreeUpdate.UpdateTree(t, start, end, delta, hint, hint2);
    left := EditMissed(t, u, s, x, end, delta, missed);
    EditKeeps(lang, t, u, s, x, start, end, delta, missed);
    SettledAfterEdit(lang, t, u, s, x, start, end, delta, missed);
  }

  /** The tree is one that `update_tree` makes, for some search hints. */
  ghost predicate Placed(t: Segment, u: Segment, start: int, end: int, delta: int) {
    ValidRoot(t) && TreeUpdate.IsRegion(t, start, end, delta) && TreeUpdate.UpdatedBy(t, u, start, end, delta)
  }

  // ----- the rest of update_syntax -----

  lemma EmptyUpdated(lang: Language, t: Segment, missed: set<int>)
    requires lang.Consuming()
    ensures Updated(lang, t, Segment(Some(Root), 0, 0, true, []), "", missed, {}, {})
  {
    EmptyTree(lang, "");
    CountZero([], 0, 0);
  }

  /** An empty invalid segment at the end of the text is dropped. */
  lemma RemovedUpdated(lang: Language, t: Segment, text: string, p: Path, missed: set<int>)
    requires lang.Consuming() && Sound(t, text) && Consistent(lang, t, text, -1, missed) && text != ""
    requires CleanBefore(t, |text|) && IsLineStart(text, |text|)
    requires p != [] && IsPath(t, p) && At(t, p).IsInvalid()
    ensures Updated(lang, t, RemoveAt(t, p), text, missed, missed, {}) && AllClean(RemoveAt(t, p), text)
    ensures CleanBefore(RemoveAt(t, p), |text|) && InvalidCount(RemoveAt(t, p).children) < InvalidCount(t.children)
  {
    hide NonStart, Consistent, Doubt, DoubtEnds, Blamed, EndSettled, Dirty, RemoveAt, Sound;
    var u := RemoveAt(t, p);
    RemovedTree(t, text, p);
    RemovedBehind(t, text, p);
    RemovedContexts(lang, t, text, p, missed);
    TerminatedIsSettled(lang, u, text, -1, missed);
    forall a: nat | a <= |text| ensures CleanBefore(u, a) {
      NarrowClean(u, a, |text|);
    }
    forall q | Stray(u, text, q, -1) ensures Blamed(t, text, -1, {}, q) {
      RemovedStray(t, text, p, q);
    }
    forall b | Doubt(t, text, missed, b) ensures DoubtEnds(t, u, text, missed, b) {
      RemovedDoubt(t, u, text, missed, b);
    }
  }

  lemma RemovedDoubt(t: Segment, u: Segment, text: string, missed: set<int>, b: int)
    requires AllClean(t, text) && AllClean(u, text) && Doubt(t, text, missed, b)
    requires forall o :: 0 <= o < |text| ==> ContextAt(u, o) == ContextAt(t, o)
    requires forall x, y :: Dirty(u.children, x, y) ==> Dirty(t.children, x, y)
    ensures DoubtEnds(t, u, text, missed, b)
  {
    hide Dirty, MarkHolds, Stray;
  }

  lemma RemovedStray(t: Segment, text: string, p: Path, q: int)
    requires AllClean(t, text) && p != [] && IsPath(t, p) && Stray(RemoveAt(t, p), text, q, -1)
    requires NonStart(RemoveAt(t, p).children, q) ==> NonStart(t.children, q)
    ensures Blamed(t, text, -1, {}, q)
  {
    assert q <= q && Stray(t, text, q, -1);
  }

  lemma RemovedTree(t: Segment, text: string, p: Path)
    requires Sound(t, text) && CleanBefore(t, |text|) && IsLineStart(text, |text|)
    requires p != [] && IsPath(t, p) && At(t, p).IsInvalid()
    ensures var u := RemoveAt(t, p);
      && Sound(u, text) && CleanBefore(u, |text|) && AllClean(t, text) && AllClean(u, text)
      && InvalidCount(u.children) < InvalidCount(t.children)
      && (forall q :: NonStart(u.children, q) ==> NonStart(t.children, q))
      && (forall x, y :: Dirty(u.children, x, y) ==> Dirty(t.children, x, y))
  {
    RemoveShape(t, p);
    RemoveDirt(t, p);
    RemoveCount(t, p);
    TextIsClean(t, text);
    TextIsClean(RemoveAt(t, p), text);
  }

  lemma RemovedBehind(t: Segment, text: string, p: Path)
    requires p != [] && IsPath(t, p)
    ensures forall a :: CleanBefore(t, a) ==> CleanBefore(RemoveAt(t, p), a)
  {
    RemoveDirt(t, p);
  }

  lemma RemovedContexts(lang: Language, t: Segment, text: string, p: Path, missed: set<int>)
    requires lang.Consuming() && Sound(t, text) && Consistent(lang, t, text, -1, missed) && AllClean(t, text) && CleanBefore(t, |text|)
    requires p != [] && IsPath(t, p) && At(t, p).IsInvalid()
    ensures Consistent(lang, RemoveAt(t, p), text, -1, missed) && TerminatorsOk(lang, RemoveAt(t, p), text)
    ensures forall o :: 0 <= o < |text| ==> ContextAt(RemoveAt(t, p), o) == ContextAt(t, o)
  {
    var u := RemoveAt(t, p);
    forall o | 0 <= o < |text| ensures ContextAt(u, o) == ContextAt(t, o) {
      RemoveContexts(t, p, o);
      if ContextAt(t, o) == None { InvalidIsDirty(t.children, o, Own(t), 0, |text|); }
    }
    ConsistentTerminators(lang, t, u, text, missed);
    ConsistentCopy(lang, t, u, text, missed, -1, Root);
  }

  lemma ConsistentTerminators(lang: Language, t: Segment, u: Segment, text: string, missed: set<int>)
    requires lang.Consuming() && Consistent(lang, t, text, -1, missed)
    requires forall o :: 0 <= o < |text| ==> ContextAt(u, o) == ContextAt(t, o)
    ensures TerminatorsOk(lang, u, text)
  {
  }

  /** The lines that `update_syntax` is to analyze: from the line of the first invalid
      segment to the end of the line of `end`. */
  function LastLineEnd(text: string, end: nat): (r: nat)
    requires end <= |text|
    ensures end <= r <= |text|
  {
    if IsLineStart(text, end) || end == |text| then end else LineEnd(text, end)
  }

  /** `update_syntax` after `update_tree`.  `end` is the offset the caller wants the
      text analyzed up to, `budget` the number of lines the time suffices for. */
  method AnalyzeText(lang: Language, t: Segment, text: string, end: Option<nat>, budget: Option<nat>, ghost missed: set<int>)
    returns (u: Segment, ghost left: set<int>, ghost from: nat, ghost swallowed: set<int>)
    requires lang.Consuming() && Sound(t, text) && Consistent(lang, t, text, -1, missed) && EndSettled(lang, t, text, -1, missed)
    requires end.Some? ==> end.value <= |text|
    ensures Updated(lang, t, u, text, missed, left, swallowed)
    ensures Advanced(t, u, text, from, end, budget)
    ensures end.None? && budget.None? ==> AllClean(u, text)
    ensures InvalidCount(t.children) == 0 && text != "" ==> u == t && left == missed && swallowed == {}
  {
    hide Updated, Consistent, EndSettled;
    u, left, from, swallowed := t, missed, |text|, {};
    if text == "" {
      u, left := Segment(Some(Root), 0, 0, true, []), {};
      EmptyUpdated(lang, t, missed);
      EmptyTree(lang, "");
      EndClean(u, text);
      return;
    }
    UpdatedSame(lang, t, text, missed);
    var first := FirstInvalid(t);
    if first.None? {
      NoneInvalid(t);
      EndClean(t, text);
      CountIsClean(t, text);
      return;
    }
    var invalid: nat := At(t, first.value).startAt;
    RemoveCount(t, first.value);
    if end.Some? && invalid >= end.value {
      return;
    }
    var start := LineStart(text, invalid);
    var endOffset := LastLineEnd(text, end.GetOr(|text|));
    from := start;
    FirstLine(t, text, first.value);
    if start == endOffset {
      // after deleting all text of the last line
      assert endOffset == |text|;
      RemovedUpdated(lang, t, text, first.value, missed);
      u := RemoveAt(t, first.value);
    } else {
      u, left, swallowed := AnalyzeLines(lang, t, text, start, endOffset, budget, missed);
      LinesAdvanced(t, u, text, start, end, budget);
    }
  }

  /** How far a call gets: to `end`, if there is time, and at any rate over the first line
      that is to be analyzed, `from`; and no further if there is time for one line only. */
  ghost predicate Advanced(t: Segment, u: Segment, text: string, from: nat, end: Option<nat>, budget: Option<nat>)
    requires end.Some? ==> end.value <= |text|
  {
    && from <= |text|
    && Progress(u, text, from, end.GetOr(|text|), budget)
    && (end.None? && InvalidCount(t.children) > 0 && text != "" ==> IsFirstLine(t, text, from))
    && (end.None? && InvalidCount(u.children) > 0 ==>
          && text != "" && IsFirstLine(t, text, from)
          && (LineDone(u, text, from) || (from == |text| && CleanBefore(u, from) && InvalidCount(u.children) < InvalidCount(t.children))))
    && (budget.Some? && budget.value <= 1 && from < |text| ==> IsFirstLine(t, text, from) && Untouched(t, u, text, LineEnd(text, from)))
  }

  lemma FirstLine(t: Segment, text: string, p: Path)
    requires Sound(t, text) && IsFirstInvalid(t, Some(p))
    ensures 0 <= At(t, p).startAt <= |text|
    ensures var from := LineStart(text, At(t, p).startAt); IsFirstLine(t, text, from) && (from < |text| ==> DirtyLine(t, text, from))
  {
    var invalid := At(t, p).startAt;
    var from := LineStart(text, invalid);
    forall a: nat | a <= |text| && IsLineStart(text, a) && CleanBefore(t, a) ensures a <= from {
      if invalid < a { PathDirty(t, p, 0, a); } else { StartAfter(text, a, invalid); }
    }
    LineOf(text, invalid);
    if from < |text| { PathDirty(t, p, from, Top(text, LineEnd(text, from))); }
  }

  lemma LinesAdvanced(t: Segment, u: Segment, text: string, from: nat, end: Option<nat>, budget: Option<nat>)
    requires from < |text| && IsFirstLine(t, text, from) && (end.Some? ==> end.value <= |text|)
    requires Progress(u, text, from, LastLineEnd(text, end.GetOr(|text|)), budget)
    requires InvalidCount(u.children) == 0 || LineDone(u, text, from)
    requires budget.Some? && budget.value <= 1 ==> Untouched(t, u, text, LineEnd(text, from))
    ensures Advanced(t, u, text, from, end, budget)
  {
    var e := end.GetOr(|text|);
    if CleanBefore(u, LastLineEnd(text, e)) && Dirty(u.children, 0, e) { DirtyWiden(u.children, 0, e, 0, LastLineEnd(text, e)); }
  }

  // ----- edits after which all marks hold -----

  ghost predicate HasInvalidChar(t: Segment, text: string, a: nat)
    requires a < |text|
  {
    exists o :: a <= o < LineEnd(text, a) && ContextAt(t, o) == None
  }

  /** The mark of a line with an invalid character holds. */
  lemma CharHolds(t: Segment, text: string, a: nat)
    requires Sound(t, text) && a < |text| && HasInvalidChar(t, text, a)
    ensures MarkHolds(t, text, a)
  {
    var y := Top(text, LineEnd(text, a));
    var o :| a <= o < LineEnd(text, a) && ContextAt(t, o) == None;
    PastSplit(t.children, 0, t.endAt, t.context, a, y, Own(t));
    if a < o { InvalidIsDirty(t.children, o, Own(t), a + 1, y); }
  }

  /** With a single invalid segment, or none that is empty, all marks hold. */
  lemma EditIsHeld(t: Segment, text: string)
    requires Sound(t, text) && (InvalidCount(t.children) <= 1 || Filled(t.children))
    ensures Held(t, text)
  {
    hide MarkHolds, Dirty, Filled, DirtyLine, Sound;
    forall b: nat | b < |text| && IsLineStart(text, b) && !CleanBefore(t, b) ensures MarkHolds(t, text, b) {
      if DirtyLine(t, text, b) {
        LineHasChar(t, text, b);
        CharHolds(t, text, b);
      } else {
        NoMark(t, text, b);
      }
    }
  }

  lemma NoMark(t: Segment, text: string, b: nat)
    requires b < |text| && !DirtyLine(t, text, b)
    ensures MarkHolds(t, text, b)
  {
  }

  lemma LineHasChar(t: Segment, text: string, b: nat)
    requires Sound(t, text) && (InvalidCount(t.children) <= 1 || Filled(t.children))
    requires b < |text| && !CleanBefore(t, b) && DirtyLine(t, text, b)
    ensures HasInvalidChar(t, text, b)
  {
    if Filled(t.children) {
      FilledLine(t, text, b);
    } else {
      var p := DirtyPath(t, t.children, 0, 0, b);
      WithinSegment(t, p);
      RemoveCount(t, p);
      OneChar(t, p, b, Top(text, LineEnd(text, b)));
    }
  }

  lemma FilledLine(t: Segment, text: string, a: nat)
    requires Sound(t, text) && Filled(t.children) && a < |text| && DirtyLine(t, text, a)
    ensures HasInvalidChar(t, text, a)
  {
    var o := FilledChar(t.children, 0, t.endAt, t.context, a, Top(text, LineEnd(text, a)), Own(t));
    ForestBounds(t.children, 0, t.endAt, t.context);
    assert a <= o < LineEnd(text, a) && ContextAt(t, o) == None;
  }

  // ----- edits of an analyzed text -----

  /** After edits of an analyzed text only the line at the end of the region can be
      missed, and only if it has text and was no line of its own before, or the first. */
  lemma AnalyzedMissed(t: Segment, u: Segment, s: string, x: string, start: int, end: int, d: int)
    requires Edited(t, u, s, x, start, end, d) && AllClean(t, s)
    ensures EditMissed(t, u, s, x, end, d, {}) ==
      if LeftAtEnd(u, x, end) && x[end] != '\n' && !(0 < end - d && IsLineStart(s, end - d)) then {end} else {}
    ensures !OldLineDirty(t, s, end, d)
  {
    if LeftAtEnd(u, x, end) {
      LineAfter(t, u, s, x, start, end, d, end);
    }
  }
}
