/** Texts that end inside a context with a character of a simple context: when the
    analysis reaches such an end, it loses that character's context. */
module OpenEnd {
  import opened Wrappers
  import opened Contexts
  import opened Language
  import opened LineAnalysis
  import opened Lines
  import opened SegmentTree
  import opened Labelling
  import opened Consistency
  import opened LineStep
  import opened EditStep
  import opened TreeUpdate
  import opened DirtMoves
  import opened Interruption

  /** The text ends in a state other than the toplevel one, and its last character
      belongs to a simple context. */
  ghost predicate EndIsOpen(lang: Language, text: string)
    requires lang.Consuming()
  {
    text != "" && ScanEnd(lang, text, 0, Root) != Root && Scan(lang, text, 0, Root)[|text| - 1].IsSimple()
  }

  // ----- the context of the last character tells whether the end is open -----

  lemma SimpleChild(lang: Language, c: Context, d: nat, line: string, pos: nat)
    requires lang.Has(c) && c.IsContainer() && pos <= |line| && lang.Consuming()
    ensures var r := lang.ChildStep(c, d, line, pos);
      r.Some? && r.value.child.value.IsSimple() ==> r.value.next == lang.AfterSimple(r.value.child.value)
  {
  }

  lemma {:induction false} SimpleAmong(lang: Language, c: Context, ds: seq<nat>, endFound: bool, first: bool, line: string, pos: nat)
    requires lang.Has(c) && c.IsContainer() && pos <= |line| && lang.Consuming()
    ensures var r := lang.ChildrenStep(c, ds, endFound, first, line, pos);
      r.Some? && r.value.child.value.IsSimple() ==> r.value.next == lang.AfterSimple(r.value.child.value)
    decreases ds
  {
    if ds != [] {
      SimpleChild(lang, c, ds[0], line, pos);
      SimpleAmong(lang, c, ds[1..], endFound, first, line, pos);
    }
  }

  lemma {:induction false} SimpleStep(lang: Language, c: Context, first: bool, line: string, pos: nat)
    requires lang.Has(c) && c.IsContainer() && pos <= |line| && lang.Consuming()
    ensures var r := lang.NextStep(c, first, line, pos);
      r.Some? && r.value.child.Some? && r.value.child.value.IsSimple() ==> r.value.next == lang.AfterSimple(r.value.child.value)
    decreases |line| - pos
  {
    SimpleAmong(lang, c, lang.Def(c).children, lang.EndMatch(c, line, |line|, pos).Some?, first, line, pos);
    if lang.StepAt(c, first, line, pos).None? && pos < |line| { SimpleStep(lang, c, first, line, pos + 1); }
  }

  lemma {:induction false} NothingAmong(lang: Language, c: Context, ds: seq<nat>, endFound: bool, first: bool, line: string)
    requires lang.Has(c) && c.IsContainer() && lang.Consuming()
    ensures lang.ChildrenStep(c, ds, endFound, first, line, |line|).None?
    decreases ds
  {
    if ds != [] { NothingAmong(lang, c, ds[1..], endFound, first, line); }
  }

  /** Nothing starts or ends after the last character of a line. */
  lemma NothingAtEnd(lang: Language, c: Context, first: bool, line: string)
    requires lang.Has(c) && c.IsContainer() && lang.Consuming()
    ensures Analyze(lang, c, first, line, |line|) == ([], c)
  {
    NothingAmong(lang, c, lang.Def(c).children, lang.EndMatch(c, line, |line|, |line|).Some?, first, line);
    assert lang.StepAt(c, first, line, |line|).None?;
  }

  /** The context of the last character. */
  function FinalContext(lang: Language, c: Context, first: bool, line: string, pos: nat): (r: Context)
    requires lang.Has(c) && c.IsContainer() && pos < |line| && lang.Consuming()
    ensures lang.Has(r)
  {
    Analyze(lang, c, first, line, pos).0[|line| - pos - 1]
  }

  /** The state after a line whose last character belongs to a simple context. */
  lemma {:induction false} SimpleLast(lang: Language, c: Context, first: bool, line: string, pos: nat)
    requires lang.Has(c) && c.IsContainer() && pos < |line| && lang.Consuming()
    requires FinalContext(lang, c, first, line, pos).IsSimple()
    ensures Analyze(lang, c, first, line, pos).1 == lang.AfterSimple(FinalContext(lang, c, first, line, pos))
    decreases |line| - pos, c.Depth()
  {
    SomeStep(lang, c, first, line, pos);
    hide Language.NextStep, Language.AfterSimple, Context.Depth, Analyze, FinalContext;
    var s := lang.NextStep(c, first, line, pos).value;
    if s.to < |line| {
      StepLabels(lang, c, first, line, pos, s);
      SimpleLast(lang, s.next, first, line, s.to);
    } else {
      LastStep(lang, c, first, line, pos, s);
    }
  }

  /** A simple label comes from some step. */
  lemma SomeStep(lang: Language, c: Context, first: bool, line: string, pos: nat)
    requires lang.Has(c) && c.IsContainer() && pos < |line| && lang.Consuming()
    requires FinalContext(lang, c, first, line, pos).IsSimple()
    ensures lang.NextStep(c, first, line, pos).Some?
  {
    hide Language.NextStep, Language.AfterSimple, Context.Depth;
  }

  lemma StepLabels(lang: Language, c: Context, first: bool, line: string, pos: nat, s: Step)
    requires lang.Has(c) && c.IsContainer() && pos < |line| && lang.Consuming() && lang.NextStep(c, first, line, pos) == Some(s)
    requires s.to < |line|
    ensures Analyze(lang, c, first, line, pos).1 == Analyze(lang, s.next, first, line, s.to).1
    ensures FinalContext(lang, c, first, line, pos) == FinalContext(lang, s.next, first, line, s.to)
  {
    hide Language.NextStep, Language.AfterSimple, Context.Depth, Analyze, StepContexts;
    StepAnalyzed(lang, c, first, line, pos, s);
    LastOfBoth(StepContexts(c, s, pos), Analyze(lang, s.next, first, line, s.to).0);
  }

  lemma StepAnalyzed(lang: Language, c: Context, first: bool, line: string, pos: nat, s: Step)
    requires lang.Has(c) && c.IsContainer() && pos <= |line| && lang.Consuming() && lang.NextStep(c, first, line, pos) == Some(s)
    ensures var rest := Analyze(lang, s.next, first, line, s.to);
      Analyze(lang, c, first, line, pos) == (StepContexts(c, s, pos) + rest.0, rest.1)
  {
    hide Language.NextStep, Language.AfterSimple, Context.Depth, Repeat;
  }

  lemma LastOfBoth(a: seq<Context>, b: seq<Context>)
    requires b != []
    ensures (a + b)[|a + b| - 1] == b[|b| - 1]
  {
  }

  lemma LastStep(lang: Language, c: Context, first: bool, line: string, pos: nat, s: Step)
    requires lang.Has(c) && c.IsContainer() && pos < |line| && lang.Consuming()
    requires lang.NextStep(c, first, line, pos) == Some(s) && s.to == |line| && FinalContext(lang, c, first, line, pos).IsSimple()
    ensures Analyze(lang, c, first, line, pos).1 == lang.AfterSimple(FinalContext(lang, c, first, line, pos))
  {
    hide Language.NextStep, Language.AfterSimple, Context.Depth;
    NothingAtEnd(lang, s.next, first, line);
    SimpleStep(lang, c, first, line, pos);
  }

  /** Line terminators belong to containers. */
  lemma NotTerminated(lang: Language, c: Context, first: bool, line: string)
    requires lang.Has(c) && c.IsContainer() && line != "" && lang.Consuming()
    requires LineContexts(lang, c, first, line)[|line| - 1].IsSimple()
    ensures Text(line) == line
  {
    hide LineContexts, LineExit;
    if line[|line| - 1] == '\n' { ExitIsLast(lang, c, first, line); }
  }

  lemma PlainLine(lang: Language, c: Context, first: bool, line: string)
    requires lang.Has(c) && c.IsContainer() && lang.Consuming() && Text(line) == line
    ensures LineContexts(lang, c, first, line) == Analyze(lang, c, first, line, 0).0
    ensures LineExit(lang, c, first, line) == AfterLineEnd(lang, Analyze(lang, c, first, line, 0).1)
  {
    hide Analyze, AfterLineEnd, Text;
  }

  lemma SimpleLineEnd(lang: Language, c: Context, first: bool, line: string)
    requires lang.Has(c) && c.IsContainer() && line != "" && lang.Consuming()
    requires LineContexts(lang, c, first, line)[|line| - 1].IsSimple()
    ensures LineExit(lang, c, first, line) == AfterLineEnd(lang, lang.AfterSimple(LineContexts(lang, c, first, line)[|line| - 1]))
  {
    hide LineContexts, LineExit, Analyze, AfterLineEnd;
    NotTerminated(lang, c, first, line);
    PlainLine(lang, c, first, line);
    SimpleLast(lang, c, first, line, 0);
  }

  lemma {:induction false} SimpleScanEnd(lang: Language, text: string, a: nat, e: Context)
    requires lang.Consuming() && lang.Has(e) && e.IsContainer() && a < |text|
    requires Scan(lang, text, a, e)[|text| - 1 - a].IsSimple()
    ensures var c := Scan(lang, text, a, e)[|text| - 1 - a];
      lang.Has(c) && ScanEnd(lang, text, a, e) == AfterLineEnd(lang, lang.AfterSimple(c))
    decreases |text| - a
  {
    hide LineContexts, LineExit;
    var b := LineEnd(text, a);
    ScanUnfolds(lang, text, a, e, |text| - 1);
    if b < |text| {
      SimpleScanEnd(lang, text, b, LineExit(lang, e, a == 0, text[a..b]));
    } else {
      SimpleLineEnd(lang, e, a == 0, text[a..b]);
    }
  }

  /** The end of a text is open exactly if the context of its last character says so. */
  lemma OpenByLabel(lang: Language, text: string)
    requires lang.Consuming() && text != ""
    ensures EndIsOpen(lang, text) <==> OpenLabel(lang, Scan(lang, text, 0, Root)[|text| - 1])
  {
    if Scan(lang, text, 0, Root)[|text| - 1].IsSimple() { SimpleScanEnd(lang, text, 0, Root); }
  }

  // ----- an open end is to be analyzed -----

  function LastLine(text: string): (a: nat)
    requires text != ""
    ensures a < |text| && IsLineStart(text, a) && LineEnd(text, a) == |text|
  {
    LineOf(text, |text| - 1);
    LineStart(text, |text| - 1)
  }

  /** If the last character has a context that makes the end an open one, the last line
      is to be analyzed, or missed. */
  ghost predicate EndSettled(lang: Language, t: Segment, text: string, cur: int, missed: set<int>) {
    text != "" && LastLine(text) !in missed && !Pending(t, text, LastLine(text), cur) && ContextAt(t, |text| - 1).Some? ==>
      !OpenLabel(lang, ContextAt(t, |text| - 1).value)
  }

  lemma TerminatedIsSettled(lang: Language, t: Segment, text: string, cur: int, missed: set<int>)
    requires TerminatorsOk(lang, t, text) && text != "" && text[|text| - 1] == '\n'
    ensures EndSettled(lang, t, text, cur, missed)
  {
  }

  // ----- the exact theorem -----

  lemma LastOnly(text: string, a: nat)
    requires a < |text| && IsLineStart(text, a)
    ensures LineEnd(text, a) == |text| <==> a == LastLine(text)
  {
    var b := LastLine(text);
    if a < b { LinesBefore(text, a, b); }
  }

  /** Before the first missed line, and before the last line, the tree is the scan. */
  lemma PrefixIsScan(lang: Language, t: Segment, text: string, missed: set<int>, o: nat)
    requires lang.Consuming() && Consistent(lang, t, text, -1, missed) && AllClean(t, text) && o < |text| && o < LastLine(text)
    requires forall a :: a in missed ==> a > o
    ensures ContextAt(t, o) == Some(Scan(lang, text, 0, Root)[o])
  {
    hide Consistent, Scan, LineIs;
    forall a: nat, e | a < |text| && a < o + 1 && IsLineStart(text, a) && EntryIs(lang, t, a, e) ensures !Torn(lang, t, text, a, e) {
      LastOnly(text, a);
    }
    LinesAreRight(lang, t, text, missed, o + 1);
    ScanFrom(lang, t, text, 0, Root, o);
  }

  /** A torn last line after lines that are right: the end is open, and the tree not the scan. */
  lemma TornIsOpen(lang: Language, t: Segment, text: string, e: Context)
    requires lang.Consuming() && text != "" && AnalyzedTo(lang, t, text, LastLine(text))
    requires EntryIs(lang, t, LastLine(text), e) && Torn(lang, t, text, LastLine(text), e)
    ensures EndIsOpen(lang, text) && !IsScan(lang, t, text)
  {
    hide Scan, LineContexts, AnalyzedTo, EndIsOpen;
    var a, o := LastLine(text), |text| - 1;
    ScanJoins(lang, t, text, 0, Root, a, e, o);
    ScanUnfolds(lang, text, a, e, o);
    OpenByLabel(lang, text);
    assert ContextAt(t, o) != Some(Scan(lang, text, 0, Root)[o]);
  }

  /** In a tree that is the scan, the end is settled exactly if it is not open. */
  lemma ScanEndSettled(lang: Language, t: Segment, text: string, missed: set<int>)
    requires lang.Consuming() && IsScan(lang, t, text) && AllClean(t, text)
    requires text != "" ==> LastLine(text) !in missed
    ensures EndSettled(lang, t, text, -1, missed) <==> !EndIsOpen(lang, text)
  {
    if text != "" { OpenByLabel(lang, text); }
  }

  lemma ScanIsRight(lang: Language, t: Segment, text: string, missed: set<int>)
    requires lang.Consuming() && IsScan(lang, t, text)
    ensures AllRight(lang, t, text, missed)
  {
    hide Scan, LineIs;
    forall a: nat, e: Context | a in missed && a < |text| && IsLineStart(text, a) && EntryIs(lang, t, a, e)
      ensures LineIs(lang, t, text, a, e)
    {
      ScanLine(lang, t, text, 0, Root, a, e);
    }
  }

  lemma RightIsScan(lang: Language, t: Segment, text: string, missed: set<int>)
    requires lang.Consuming() && Consistent(lang, t, text, -1, missed) && AllClean(t, text) && AllRight(lang, t, text, missed)
    requires text != "" && LastLine(text) !in missed ==> !EndIsOpen(lang, text)
    ensures IsScan(lang, t, text)
  {
    hide Consistent, Scan, LineIs, LineContexts, EndIsOpen;
    if text != "" {
      var b := LastLine(text);
      forall a: nat, e | a < |text| && a < b && IsLineStart(text, a) && EntryIs(lang, t, a, e) ensures !Torn(lang, t, text, a, e) {
        LastOnly(text, a);
      }
      LinesAreRight(lang, t, text, missed, b);
      forall a: nat, e: Context | a < |text| && IsLineStart(text, a) && EntryIs(lang, t, a, e) ensures LineIs(lang, t, text, a, e) {
        RightFrom(lang, t, text, missed, a, e);
      }
      forall o | 0 <= o < |text| ensures ContextAt(t, o) == Some(Scan(lang, text, 0, Root)[o]) {
        ScanTheorem(lang, t, text, o);
      }
    }
  }

  lemma RightFrom(lang: Language, t: Segment, text: string, missed: set<int>, a: nat, e: Context)
    requires lang.Consuming() && Consistent(lang, t, text, -1, missed) && AllClean(t, text) && AllRight(lang, t, text, missed)
    requires text != "" && AnalyzedTo(lang, t, text, LastLine(text))
    requires LastLine(text) !in missed ==> !EndIsOpen(lang, text)
    requires a < |text| && IsLineStart(text, a) && EntryIs(lang, t, a, e)
    ensures LineIs(lang, t, text, a, e)
  {
    hide Consistent, LineIs, LineContexts, EndIsOpen, Torn;
    if a in missed {
      assert Right(lang, t, text, a);
    } else {
      LineFromEntry(lang, t, text, a, e, missed);
      if Torn(lang, t, text, a, e) {
        TornAtEnd(lang, t, text, a, e);
        TornIsOpen(lang, t, text, e);
      }
    }
  }

  lemma TornAtEnd(lang: Language, t: Segment, text: string, a: nat, e: Context)
    requires lang.Consuming() && a < |text| && IsLineStart(text, a) && lang.Has(e) && e.IsContainer() && Torn(lang, t, text, a, e)
    ensures a == LastLine(text)
  {
    LastOnly(text, a);
  }

  /** The exact theorem: with everything analyzed, the tree is the scan exactly if every
      missed line is right all the same, and the end of the text is not open unless the last
      line is a missed one. */
  lemma MissedTheorem(lang: Language, t: Segment, text: string, missed: set<int>)
    requires lang.Consuming() && Consistent(lang, t, text, -1, missed) && AllClean(t, text) && EndSettled(lang, t, text, -1, missed)
    ensures IsScan(lang, t, text) <==>
      AllRight(lang, t, text, missed) && (text != "" && LastLine(text) !in missed ==> !EndIsOpen(lang, text))
  {
    hide Consistent, EndSettled, IsScan, EndIsOpen, AllClean, AllRight;
    if IsScan(lang, t, text) {
      ScanIsRight(lang, t, text, missed);
      if text != "" && LastLine(text) !in missed { ScanEndSettled(lang, t, text, missed); }
    } else if AllRight(lang, t, text, missed) && (text != "" && LastLine(text) !in missed ==> !EndIsOpen(lang, text)) {
      RightIsScan(lang, t, text, missed);
    }
  }

  // ----- terminated texts -----

  /** Line terminators are in containers. */
  lemma {:induction false} ScanTerminator(lang: Language, text: string, a: nat, e: Context, o: nat)
    requires lang.Consuming() && lang.Has(e) && e.IsContainer() && a <= o < |text| && text[o] == '\n'
    ensures !Scan(lang, text, a, e)[o - a].IsSimple()
    decreases |text| - a
  {
    hide LineContexts, LineExit;
    var b := LineEnd(text, a);
    ScanUnfolds(lang, text, a, e, o);
    if o < b {
      ExitIsLast(lang, e, a == 0, text[a..b]);
    } else {
      ScanTerminator(lang, text, b, LineExit(lang, e, a == 0, text[a..b]), o);
    }
  }

  lemma OpenUnterminated(lang: Language, text: string)
    requires lang.Consuming() && EndIsOpen(lang, text)
    ensures text != "" && text[|text| - 1] != '\n'
  {
    hide Scan, ScanEnd;
    if text[|text| - 1] == '\n' { ScanTerminator(lang, text, 0, Root, |text| - 1); }
  }

  // ----- keeping the end settled -----

  /** The end stays settled when the last line keeps its context and what it has to
      analyze, or is counted as pending or missed. */
  lemma StaysSettled(lang: Language, t: Segment, u: Segment, text: string, cur: int, next: int, missed: set<int>, more: set<int>)
    requires EndSettled(lang, t, text, cur, missed)
    requires text != "" ==> ContextAt(u, |text| - 1) == None || ContextAt(u, |text| - 1) == ContextAt(t, |text| - 1)
    requires text != "" && (LastLine(text) in missed || Pending(t, text, LastLine(text), cur)) ==>
      LastLine(text) in more || Pending(u, text, LastLine(text), next)
    ensures EndSettled(lang, u, text, next, more)
  {
  }

  lemma LastAfter(text: string, ls: nat)
    requires ls < |text| && IsLineStart(text, ls) && LineEnd(text, ls) < |text|
    ensures LineEnd(text, ls) <= LastLine(text)
  {
    StartAfter(text, LineEnd(text, ls), |text| - 1);
  }

  lemma SettledAfterStep(lang: Language, t: Segment, u: Segment, text: string, ls: nat, c: Context, missed: set<int>)
    requires lang.Consuming() && ls < |text| && IsLineStart(text, ls) && lang.Has(c) && c.IsContainer()
    requires Stepped(lang, t, u, text, ls, c) && LineEnd(text, ls) < |text| && EndSettled(lang, t, text, ls, missed)
    requires NoMarkLost(t, u, text, LineEnd(text, ls)) <==> MarkHolds(t, text, LineEnd(text, ls))
    ensures EndSettled(lang, u, text, LineEnd(text, ls), missed - {ls, LineEnd(text, ls)})
    ensures EndSettled(lang, u, text, -1, After(t, u, text, ls, false, missed))
  {
    hide MarkHolds, NoMarkLost, BothRoot, EndSettled, Stepped, DirtyLine;
    LastAfter(text, ls);
    LastOver(lang, t, u, text, ls, c);
    StaysSettled(lang, t, u, text, ls, LineEnd(text, ls), missed, missed - {ls, LineEnd(text, ls)});
    StaysSettled(lang, t, u, text, ls, -1, missed, After(t, u, text, ls, false, missed));
  }

  /** The last line keeps its contexts over a step before it, and what it has to analyze if it
      is not the next one. */
  lemma LastOver(lang: Language, t: Segment, u: Segment, text: string, ls: nat, c: Context)
    requires lang.Consuming() && ls < |text| && IsLineStart(text, ls) && lang.Has(c) && c.IsContainer()
    requires Stepped(lang, t, u, text, ls, c) && LineEnd(text, ls) < |text|
    ensures ContextAt(u, |text| - 1) == ContextAt(t, |text| - 1)
    ensures LastLine(text) > LineEnd(text, ls) ==> (DirtyLine(u, text, LastLine(text)) <==> DirtyLine(t, text, LastLine(text)))
    ensures LastLine(text) == LineEnd(text, ls) ==> (NoMarkLost(t, u, text, LineEnd(text, ls)) ==> DirtyLine(t, text, LastLine(text)) ==> DirtyLine(u, text, LastLine(text)))
  {
    hide ContextAt, LineContexts;
  }

  lemma SettledAfterMark(lang: Language, u: Segment, w: Segment, text: string, le: nat, missed: set<int>)
    requires Sound(u, text) && TerminatorsOk(lang, u, text) && CleanBefore(u, le)
    requires 0 < le < |text| && IsLineStart(text, le) && Marked(u, w, le) && EndSettled(lang, u, text, le, missed)
    ensures EndSettled(lang, w, text, -1, missed)
  {
    NextIsDirty(lang, u, w, text, le);
    var a := LastLine(text);
    if a != le && DirtyLine(u, text, a) { StillDirty(u, w, text, le, a); }
    StaysSettled(lang, u, w, text, le, -1, missed, missed);
  }

  /** An edit leaves the end settled. */
  lemma SettledAfterEdit(lang: Language, t: Segment, u: Segment, s: string, x: string, start: int, end: int, d: int, missed: set<int>)
    requires Edited(t, u, s, x, start, end, d) && TerminatorsOk(lang, t, s) && EndSettled(lang, t, s, -1, missed)
    ensures EndSettled(lang, u, x, -1, EditMissed(t, u, s, x, end, d, missed))
  {
    EditTerminators(lang, t, u, s, x, start, end, d);
    if x != "" && x[|x| - 1] == '\n' {
      TerminatedIsSettled(lang, u, x, -1, EditMissed(t, u, s, x, end, d, missed));
    } else if x != "" && !DirtyLine(u, x, LastLine(x)) && !LeftMissed(t, u, s, x, end, d, missed, LastLine(x)) {
      LastLineKept(t, u, s, x, start, end, d, missed);
    }
  }

  /** A last line with nothing to analyze after an edit is the old last line, with its
      contexts, and had nothing to analyze before. */
  lemma LastLineKept(t: Segment, u: Segment, s: string, x: string, start: int, end: int, d: int, missed: set<int>)
    requires Edited(t, u, s, x, start, end, d) && x != "" && x[|x| - 1] != '\n'
    requires !DirtyLine(u, x, LastLine(x)) && !LeftMissed(t, u, s, x, end, d, missed, LastLine(x))
    ensures s != "" && !DirtyLine(t, s, LastLine(s)) && LastLine(s) !in missed && ContextAt(u, |x| - 1) == ContextAt(t, |s| - 1)
  {
    hide Edited, DirtyLine, ContextAt, LeftMissed;
    LastLinePlace(t, u, s, x, start, end, d);
    LineKept(t, u, s, x, start, end, d, LastLine(x));
    LastLineWas(t, u, s, x, start, end, d, missed);
  }

  /** That line is behind the region. */
  lemma LastLinePlace(t: Segment, u: Segment, s: string, x: string, start: int, end: int, d: int)
    requires Edited(t, u, s, x, start, end, d) && x != "" && x[|x| - 1] != '\n' && !DirtyLine(u, x, LastLine(x))
    ensures 0 <= end <= LastLine(x) && 0 <= end - d && s != "" && |x| == |s| + d
    ensures LastLine(s) == if LastLine(x) > end then LastLine(x) - d else LineStart(s, end - d)
  {
    hide SoundUpdate, Follows, Sound, LineStart, DirtyLine;
    var a := LastLine(x);
    CleanLinePlace(t, u, s, x, start, end, d, a);
    assert LineEnd(x, a) == |x| && Top(x, |x|) == |x| + 1;
    SuffixLineStart(s, x, end, d, |x| - 1);
  }

  lemma LastLineWas(t: Segment, u: Segment, s: string, x: string, start: int, end: int, d: int, missed: set<int>)
    requires Edited(t, u, s, x, start, end, d) && x != "" && s != "" && 0 <= end <= LastLine(x) && 0 <= end - d
    requires LastLine(s) == if LastLine(x) > end then LastLine(x) - d else LineStart(s, end - d)
    requires !DirtyLine(u, x, LastLine(x)) && !LeftMissed(t, u, s, x, end, d, missed, LastLine(x)) && x[|x| - 1] != '\n'
    ensures LastLine(s) == LastLine(x) - d && !DirtyLine(t, s, LastLine(s)) && LastLine(s) !in missed
  {
    hide SoundUpdate, Follows, Sound, DirtyLine;
    LineAfter(t, u, s, x, start, end, d, LastLine(x));
  }
}
