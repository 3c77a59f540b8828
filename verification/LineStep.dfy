/** One round of the main loop of `update_syntax` keeps the tree consistent. */
module LineStep {
  import opened Wrappers
  import opened Contexts
  import opened Language
  import opened LineAnalysis
  import opened Lines
  import opened SegmentTree
  import opened Labelling
  import opened Dirt
  import opened Consistency

  /** `u` is the tree `t` after the line at `ls` was erased and analyzed from state `c`. */
  ghost predicate Stepped(lang: Language, t: Segment, u: Segment, text: string, ls: nat, c: Context)
    requires lang.Consuming() && ls < |text| && lang.Has(c) && c.IsContainer()
  {
    var le := LineEnd(text, ls);
    var labels := LineContexts(lang, c, ls == 0, text[ls..le]);
    && Sound(u, text)
    && (forall o :: ContextAt(u, o) == (if ls <= o < le then Some(labels[o - ls]) else ContextAt(t, o)))
    && !DirtyLine(u, text, ls)
    && (forall x, y :: x < y && (y <= ls || le < x) ==> (Dirty(u.children, x, y) <==> Dirty(t.children, x, y)))
    && (forall y :: le < y && Dirty(u.children, le, y) ==> Dirty(t.children, le, y))
    && (forall q :: NonStart(u.children, q) ==> q == le || (NonStart(t.children, q) && (q < ls || le < q)))
  }

  /** The toplevel segment spans the start of the line at `le`. */
  predicate BothRoot(v: Segment, le: int) {
    ContextAt(v, le - 1) == Some(Root) && ContextAt(v, le) == Some(Root)
  }

  /** If the line at `le` is to be analyzed, that is not just because of empty invalid
      segments at its beginning. */
  predicate MarkHolds(t: Segment, text: string, le: nat) {
    le < |text| && DirtyLine(t, text, le) ==> DirtyPast(t.children, le, Top(text, LineEnd(text, le)))
  }

  /** Whether it holds depends on what is to be analyzed in the line and on its first
      character. */
  lemma SameMark(t: Segment, u: Segment, text: string, b: nat)
    requires ValidRoot(t) && ValidRoot(u) && b < |text| && ContextAt(t, b) == ContextAt(u, b)
    requires DirtyLine(t, text, b) <==> DirtyLine(u, text, b)
    requires b + 1 < Top(text, LineEnd(text, b)) ==>
      (Dirty(t.children, b + 1, Top(text, LineEnd(text, b))) <==> Dirty(u.children, b + 1, Top(text, LineEnd(text, b))))
    ensures MarkHolds(t, text, b) <==> MarkHolds(u, text, b)
  {
    PastSplit(t.children, 0, t.endAt, t.context, b, Top(text, LineEnd(text, b)), Own(t));
    PastSplit(u.children, 0, u.endAt, u.context, b, Top(text, LineEnd(text, b)), Own(u));
  }

  /** The lines that are missed after a round.  If the analysis goes on with the next line,
      neither that nor the analyzed one is; otherwise the next line is missed if the states
      at its beginning are not both the toplevel one; and a mark that does not hold costs the
      next line, and the one after it, whose state at the beginning was open. */
  function After(t: Segment, v: Segment, text: string, ls: nat, next: bool, missed: set<int>): set<int>
    requires ls < |text|
  {
    var le := LineEnd(text, ls);
    if next then missed - {ls, le}
    else
      (missed - {ls})
      + (if le == |text| || BothRoot(v, le) then {} else {le})
      + (if MarkHolds(t, text, le) then {} else {le, LineEnd(text, le)})
  }

  /** The situation before a round: everything before the line is analyzed. */
  ghost predicate Ready(lang: Language, t: Segment, text: string, ls: nat, c: Context, missed: set<int>)
    requires lang.Consuming()
  {
    && ls < |text| && IsLineStart(text, ls) && CleanBefore(t, ls)
    && EntryIs(lang, t, ls, c)
    && Consistent(lang, t, text, ls, missed)
  }

  lemma EarlierLine(lang: Language, t: Segment, u: Segment, text: string, ls: nat, c: Context, a: nat, cur: int, missed: set<int>)
    requires lang.Consuming() && Ready(lang, t, text, ls, c, missed) && Stepped(lang, t, u, text, ls, c)
    requires a < ls && IsLineStart(text, a) && a !in missed
    ensures LineOk(lang, u, text, a, cur)
  {
    CleanLine(t, text, a, ls);
    LinesBefore(text, a, ls);
    assert !Pending(t, text, a, ls);
    var e :| EntryOk(lang, t, text, a, e, ls) && AnalyzedFrom(lang, t, text, a, e);
    if a > 0 {
      CleanLine(t, text, PreviousLine(text, a), ls);
    }
    SameLine(lang, t, u, text, a, e);
    assert EntryOk(lang, u, text, a, e, cur);
  }

  /** A line whose characters keep their contexts is analyzed from the same state. */
  lemma SameLine(lang: Language, t: Segment, u: Segment, text: string, a: nat, e: Context)
    requires lang.Consuming() && lang.Has(e) && e.IsContainer() && a < |text| && AnalyzedFrom(lang, t, text, a, e)
    requires forall o :: a <= o < LineEnd(text, a) ==> ContextAt(u, o) == ContextAt(t, o)
    ensures AnalyzedFrom(lang, u, text, a, e)
  {
    hide LineContexts, OpenLabel;
  }

  lemma EntryStable(lang: Language, t: Segment, text: string, ls: nat, c: Context)
    requires lang.Consuming() && ls < |text| && IsLineStart(text, ls) && EntryIs(lang, t, ls, c)
    requires TerminatorsOk(lang, t, text)
    ensures Stable(lang, c)
  {
    if ls > 0 {
      assert text[ls - 1] == '\n';
      assert ContextAt(t, ls - 1).Some?;
    }
  }

  lemma ThisLine(lang: Language, t: Segment, u: Segment, text: string, ls: nat, c: Context, cur: int, missed: set<int>)
    requires lang.Consuming() && Ready(lang, t, text, ls, c, missed) && Stepped(lang, t, u, text, ls, c)
    ensures LineOk(lang, u, text, ls, cur)
  {
    EntryStable(lang, t, text, ls, c);
    assert EntryOk(lang, u, text, ls, c, cur);
    assert LineIs(lang, u, text, ls, c);
  }

  /** The line after the next one and all lines after it. */
  lemma LaterLine(lang: Language, t: Segment, u: Segment, text: string, ls: nat, c: Context, a: nat, missed: set<int>)
    requires lang.Consuming() && Ready(lang, t, text, ls, c, missed) && Stepped(lang, t, u, text, ls, c)
    requires LineEnd(text, ls) < a < |text| && IsLineStart(text, a) && a !in missed && !DirtyLine(u, text, a)
    ensures LineOk(lang, u, text, a, LineEnd(text, ls))
  {
    var le, p := LineEnd(text, ls), PreviousLine(text, a);
    PreviousAfter(text, le, a);
    assert !Pending(t, text, a, ls);
    var e :| EntryOk(lang, t, text, a, e, ls) && AnalyzedFrom(lang, t, text, a, e);
    SameLine(lang, t, u, text, a, e);
    assert p > le ==> (Pending(u, text, p, le) <==> Pending(t, text, p, ls));
    assert EntryOk(lang, u, text, a, e, le);
  }

  lemma PreviousAfter(text: string, b: nat, a: nat)
    requires b < a <= |text| && IsLineStart(text, b)
    ensures b <= PreviousLine(text, a)
  {
    assert b > 0 ==> text[b - 1] == '\n';
  }

  // ----- lost beginnings -----

  /** A lost beginning in analyzed text is a stray one. */
  lemma BehindIsStray(t: Segment, text: string, ls: nat, q: int)
    requires ls <= |text| && IsLineStart(text, ls) && CleanBefore(t, ls) && NonStart(t.children, q) && 0 <= q < ls
    ensures Stray(t, text, q, ls)
  {
    if NonStartOk(t, text, q, ls) {
      var a := LineStart(text, q);
      CleanLine(t, text, a, ls);
      if q == a && a > 0 { CleanLine(t, text, PreviousLine(text, a), ls); }
    }
  }

  lemma AheadIsStray(t: Segment, u: Segment, text: string, ls: nat, q: int, cur: int)
    requires ls < |text| && IsLineStart(text, ls) && LineEnd(text, ls) < q < |text| && NonStart(t.children, q)
    requires forall a: nat :: LineEnd(text, ls) < a < |text| && DirtyLine(t, text, a) ==> DirtyLine(u, text, a)
    requires cur == LineEnd(text, ls) || (DirtyLine(t, text, LineEnd(text, ls)) ==> DirtyLine(u, text, LineEnd(text, ls)))
    requires Stray(u, text, q, cur)
    ensures Stray(t, text, q, ls)
  {
    var le, a := LineEnd(text, ls), LineStart(text, q);
    StartAfter(text, le, q);
    if NonStartOk(t, text, q, ls) && q == a { PreviousAfter(text, le, a); }
  }

  /** If the next line is analyzed, no beginning becomes a stray one. */
  lemma StrayOn(lang: Language, t: Segment, u: Segment, text: string, ls: nat, c: Context, q: int)
    requires lang.Consuming() && Sound(u, text) && ls < |text| && IsLineStart(text, ls) && CleanBefore(t, ls)
    requires lang.Has(c) && c.IsContainer() && Stepped(lang, t, u, text, ls, c) && Stray(u, text, q, LineEnd(text, ls))
    ensures Stray(t, text, q, ls)
  {
    var le := LineEnd(text, ls);
    NonStartNotRoot(u, q);
    if q < ls {
      BehindIsStray(t, text, ls, q);
    } else if q > le {
      AheadIsStray(t, u, text, ls, q, le);
    }
  }

  /** If it is left as it is, a beginning becomes a stray one only where a mark was lost, or
      at the start of the next line if that is not in the toplevel context. */
  lemma StrayStopped(lang: Language, t: Segment, u: Segment, text: string, ls: nat, c: Context, q: int)
    requires lang.Consuming() && Sound(u, text) && ls < |text| && IsLineStart(text, ls) && CleanBefore(t, ls)
    requires lang.Has(c) && c.IsContainer() && Stepped(lang, t, u, text, ls, c) && Stray(u, text, q, -1)
    ensures var le := LineEnd(text, ls);
      Stray(t, text, q, ls) || (le <= q && !NoMarkLost(t, u, text, le)) || (q == le < |text| && ContextAt(u, le) != Some(Root))
  {
    var le := LineEnd(text, ls);
    NonStartNotRoot(u, q);
    if q < ls {
      BehindIsStray(t, text, ls, q);
    } else if q > le && NoMarkLost(t, u, text, le) {
      AheadIsStray(t, u, text, ls, q, -1);
    }
  }

  lemma StartAfter(text: string, b: nat, o: nat)
    requires b <= o <= |text| && IsLineStart(text, b)
    ensures b <= LineStart(text, o)
  {
    assert b > 0 ==> text[b - 1] == '\n';
  }

  /** After a round the tree is consistent but for the next line; the analyzed line is no
      longer missed, and neither is the next one, which is to be analyzed. */
  lemma StepKeeps(lang: Language, t: Segment, u: Segment, text: string, ls: nat, c: Context, missed: set<int>)
    requires lang.Consuming() && Sound(t, text) && Ready(lang, t, text, ls, c, missed) && Stepped(lang, t, u, text, ls, c)
    ensures Consistent(lang, u, text, LineEnd(text, ls), missed - {ls, LineEnd(text, ls)}) && CleanBefore(u, LineEnd(text, ls))
  {
    var le, left := LineEnd(text, ls), missed - {ls, LineEnd(text, ls)};
    forall a | 0 <= a < |text| && IsLineStart(text, a) && a !in left && !Pending(u, text, a, le) ensures LineOk(lang, u, text, a, le) {
      if a < ls {
        EarlierLine(lang, t, u, text, ls, c, a, le, missed);
      } else if a == ls {
        ThisLine(lang, t, u, text, ls, c, le, missed);
      } else {
        NextStart(text, ls, a);
        LaterLine(lang, t, u, text, ls, c, a, missed);
      }
    }
    StepTerminators(lang, t, u, text, ls, c);
    StepClean(lang, t, u, text, ls, c);
  }

  /** Everything up to the end of the line is analyzed. */
  lemma StepClean(lang: Language, t: Segment, u: Segment, text: string, ls: nat, c: Context)
    requires lang.Consuming() && ls < |text| && IsLineStart(text, ls) && CleanBefore(t, ls)
    requires lang.Has(c) && c.IsContainer() && Stepped(lang, t, u, text, ls, c)
    ensures CleanBefore(u, LineEnd(text, ls))
  {
    var le := LineEnd(text, ls);
    if Dirty(u.children, 0, le) {
      DirtySplit(u.children, 0, ls, le);
      if Dirty(u.children, ls, le) {
        DirtyWiden(u.children, ls, le, ls, Top(text, le));
      } else {
        DirtyWithin(u.children, 0, u.endAt, u.context, 0, ls);
      }
    }
  }

  lemma NextStart(text: string, ls: nat, a: nat)
    requires ls < a < |text| && IsLineStart(text, ls) && IsLineStart(text, a)
    ensures LineEnd(text, ls) <= a
  {
    LinesBefore(text, ls, a);
  }

  lemma StepTerminators(lang: Language, t: Segment, u: Segment, text: string, ls: nat, c: Context)
    requires lang.Consuming() && ls < |text| && lang.Has(c) && c.IsContainer() && Stepped(lang, t, u, text, ls, c)
    requires TerminatorsOk(lang, t, text)
    ensures TerminatorsOk(lang, u, text)
  {
    forall o | 0 <= o < |text| && text[o] == '\n' && ContextAt(u, o).Some?
      ensures lang.Has(ContextAt(u, o).value) && Stable(lang, ContextAt(u, o).value)
    {
      if ls <= o < LineEnd(text, ls) {
        StepTerminator(lang, t, u, text, ls, c, o);
      } else {
        assert ContextAt(t, o) == ContextAt(u, o);
      }
    }
  }

  lemma LastLabel(lang: Language, text: string, a: nat, c: Context)
    requires lang.Consuming() && a < |text| && lang.Has(c) && c.IsContainer() && text[LineEnd(text, a) - 1] == '\n'
    ensures var line := text[a..LineEnd(text, a)];
      LineContexts(lang, c, a == 0, line)[|line| - 1] == LineExit(lang, c, a == 0, line)
      && Stable(lang, LineExit(lang, c, a == 0, line))
  {
    hide LineContexts, LineExit;
    var line := text[a..LineEnd(text, a)];
    assert line[|line| - 1] == '\n';
    ExitIsLast(lang, c, a == 0, line);
  }

  /** The terminator of the analyzed line is in the state of the next line. */
  lemma StepTerminator(lang: Language, t: Segment, u: Segment, text: string, ls: nat, c: Context, o: nat)
    requires lang.Consuming() && ls < |text| && lang.Has(c) && c.IsContainer() && Stepped(lang, t, u, text, ls, c)
    requires ls <= o < LineEnd(text, ls) && text[o] == '\n'
    ensures ContextAt(u, o) == Some(LineExit(lang, c, ls == 0, text[ls..LineEnd(text, ls)]))
    ensures Stable(lang, ContextAt(u, o).value)
  {
    hide LineContexts, LineExit, ContextAt, Dirty, NonStart, Sound, Stable;
    assert o == LineEnd(text, ls) - 1;
    LastLabel(lang, text, ls, c);
  }

  // ----- when the next line may be left as it is -----

  /** The state after the line is the toplevel one exactly if its terminator is in that
      context. */
  lemma ExitIsRoot(lang: Language, t: Segment, u: Segment, text: string, ls: nat, c: Context)
    requires lang.Consuming() && ls < |text| && lang.Has(c) && c.IsContainer()
    requires Stepped(lang, t, u, text, ls, c) && LineEnd(text, ls) < |text|
    ensures LineExit(lang, c, ls == 0, text[ls..LineEnd(text, ls)]) == Root <==> ContextAt(u, LineEnd(text, ls) - 1) == Some(Root)
  {
    hide LineContexts, LineExit, Dirty, DirtyLine, NonStart, Sound;
    LastLabel(lang, text, ls, c);
  }

  /** Erasing the line took no mark away from the start of the next one. */
  predicate NoMarkLost(t: Segment, u: Segment, text: string, le: nat) {
    le < |text| && DirtyLine(t, text, le) ==> DirtyLine(u, text, le)
  }

  /** A context that makes the end of the text an open one is not one level deep. */
  lemma OpenIsDeep(lang: Language, c: Context)
    requires OpenLabel(lang, c)
    ensures c.parent != Root
  {
  }

  /** A line analyzed from some state whose first character is in the toplevel
      context is as if analyzed from the toplevel state. */
  lemma LineRestarts(lang: Language, t: Segment, text: string, a: nat, e: Context)
    requires lang.Consuming() && a < |text| && lang.Has(e) && Stable(lang, e)
    requires AnalyzedFrom(lang, t, text, a, e) && ContextAt(t, a) == Some(Root)
    ensures AnalyzedFrom(lang, t, text, a, Root)
  {
    hide LineContexts, AnalyzedFrom;
    StartsAtRoot(lang, t, text, a, e);
    LineFromRoot(lang, e, a == 0, text[a..LineEnd(text, a)]);
    SameAnalysis(lang, t, text, a, e, Root);
  }

  lemma StartsAtRoot(lang: Language, t: Segment, text: string, a: nat, e: Context)
    requires lang.Consuming() && a < |text| && lang.Has(e) && e.IsContainer()
    requires AnalyzedFrom(lang, t, text, a, e) && ContextAt(t, a) == Some(Root)
    ensures LineContexts(lang, e, a == 0, text[a..LineEnd(text, a)])[0] == Root
  {
    hide LineContexts, OpenLabel, ContextAt;
    var line := text[a..LineEnd(text, a)];
    var labels := LineContexts(lang, e, a == 0, line);
    if Torn(lang, t, text, a, e) { OpenIsDeep(lang, labels[|line| - 1]); }
    forall o | a <= o < LineEnd(text, a) && ContextAt(t, o) == Some(Root) ensures labels[o - a] == Root {
    }
    assert labels[a - a] == Root;
  }

  lemma SameAnalysis(lang: Language, t: Segment, text: string, a: nat, e: Context, f: Context)
    requires lang.Consuming() && a < |text| && lang.Has(e) && e.IsContainer() && lang.Has(f) && f.IsContainer()
    requires LineContexts(lang, e, a == 0, text[a..LineEnd(text, a)]) == LineContexts(lang, f, a == 0, text[a..LineEnd(text, a)])
    requires AnalyzedFrom(lang, t, text, a, e)
    ensures AnalyzedFrom(lang, t, text, a, f)
  {
    hide LineContexts, OpenLabel, ContextAt, LineEnd;
  }

  /** The next line was analyzed from some state; its first character is in the
      toplevel context, so the toplevel state gives the same. */
  lemma NextLine(lang: Language, t: Segment, u: Segment, text: string, ls: nat, c: Context, missed: set<int>)
    requires lang.Consuming() && Ready(lang, t, text, ls, c, missed) && Stepped(lang, t, u, text, ls, c)
    requires LineEnd(text, ls) < |text| && BothRoot(u, LineEnd(text, ls)) && NoMarkLost(t, u, text, LineEnd(text, ls))
    requires !DirtyLine(u, text, LineEnd(text, ls)) && LineEnd(text, ls) !in missed
    ensures LineOk(lang, u, text, LineEnd(text, ls), -1)
  {
    hide AnalyzedFrom, Stepped, Ready, EntryOk, NoMarkLost, LineOk, DirtyLine, LineContexts;
    var le := LineEnd(text, ls);
    var e := OldEntry(lang, t, u, text, ls, c, le, missed);
    LineRestarts(lang, u, text, le, e);
    RootEntry(lang, u, text, le);
  }

  lemma RootEntry(lang: Language, u: Segment, text: string, a: nat)
    requires lang.Consuming() && 0 < a < |text| && AnalyzedFrom(lang, u, text, a, Root) && ContextAt(u, a - 1) == Some(Root)
    ensures LineOk(lang, u, text, a, -1)
  {
    assert EntryOk(lang, u, text, a, Root, -1);
  }

  /** The state from which a line after the analyzed one was analyzed before. */
  lemma OldEntry(lang: Language, t: Segment, u: Segment, text: string, ls: nat, c: Context, a: nat, missed: set<int>) returns (e: Context)
    requires lang.Consuming() && Ready(lang, t, text, ls, c, missed) && Stepped(lang, t, u, text, ls, c)
    requires LineEnd(text, ls) <= a < |text| && IsLineStart(text, a) && a !in missed && !DirtyLine(u, text, a)
    requires a == LineEnd(text, ls) ==> NoMarkLost(t, u, text, a)
    ensures lang.Has(e) && Stable(lang, e) && AnalyzedFrom(lang, u, text, a, e) && EntryOk(lang, t, text, a, e, ls)
  {
    assert !Pending(t, text, a, ls);
    e :| EntryOk(lang, t, text, a, e, ls) && AnalyzedFrom(lang, t, text, a, e);
    SameLine(lang, t, u, text, a, e);
  }

  lemma LineAfterNext(lang: Language, t: Segment, u: Segment, text: string, ls: nat, c: Context, a: nat, missed: set<int>)
    requires lang.Consuming() && Ready(lang, t, text, ls, c, missed) && Stepped(lang, t, u, text, ls, c)
    requires LineEnd(text, ls) < a < |text| && IsLineStart(text, a) && a !in missed && !DirtyLine(u, text, a)
    requires a == LineEnd(text, LineEnd(text, ls)) ==> NoMarkLost(t, u, text, LineEnd(text, ls))
    ensures LineOk(lang, u, text, a, -1)
  {
    var le, p := LineEnd(text, ls), PreviousLine(text, a);
    PreviousAfter(text, le, a);
    var e := OldEntry(lang, t, u, text, ls, c, a, missed);
    LinesMeetAt(text, p, a);
    LineOf(text, a - 1);
    assert p == le ==> LineEnd(text, le) == a;
    assert DirtyLine(t, text, p) ==> DirtyLine(u, text, p);
    assert EntryOk(lang, u, text, a, e, -1);
  }

  /** When the next line is left as it is, nothing else is left open. */
  lemma StepStops(lang: Language, t: Segment, u: Segment, text: string, ls: nat, c: Context, missed: set<int>)
    requires lang.Consuming() && Sound(t, text) && Ready(lang, t, text, ls, c, missed) && Stepped(lang, t, u, text, ls, c)
    requires NoMarkLost(t, u, text, LineEnd(text, ls)) <==> MarkHolds(t, text, LineEnd(text, ls))
    ensures Consistent(lang, u, text, -1, After(t, u, text, ls, false, missed))
  {
    hide MarkHolds, BothRoot;
    var le, left := LineEnd(text, ls), After(t, u, text, ls, false, missed);
    forall a | 0 <= a < |text| && IsLineStart(text, a) && a !in left && !Pending(u, text, a, -1) ensures LineOk(lang, u, text, a, -1) {
      if a < ls {
        EarlierLine(lang, t, u, text, ls, c, a, -1, missed);
      } else if a == ls {
        ThisLine(lang, t, u, text, ls, c, -1, missed);
      } else {
        NextStart(text, ls, a);
        if a == le { NextLine(lang, t, u, text, ls, c, missed); } else { LineAfterNext(lang, t, u, text, ls, c, a, missed); }
      }
    }
    StepTerminators(lang, t, u, text, ls, c);
  }

  /** When the next line is to be analyzed anyway, counting it in changes nothing. */
  lemma DirtyNextSettles(lang: Language, u: Segment, text: string, le: nat, missed: set<int>)
    requires lang.Consuming() && le <= |text| && Consistent(lang, u, text, le, missed)
    requires le < |text| ==> DirtyLine(u, text, le)
    ensures Consistent(lang, u, text, -1, missed)
  {
    forall a | 0 <= a < |text| && IsLineStart(text, a) && a !in missed && !Pending(u, text, a, -1) ensures LineOk(lang, u, text, a, -1) {
      assert !Pending(u, text, a, le);
      var e :| EntryOk(lang, u, text, a, e, le) && AnalyzedFrom(lang, u, text, a, e);
      assert EntryOk(lang, u, text, a, e, -1);
    }
  }

  lemma DirtyNextStray(u: Segment, text: string, le: nat, q: int)
    requires le <= |text| && (le < |text| ==> DirtyLine(u, text, le)) && Stray(u, text, q, -1)
    ensures Stray(u, text, q, le)
  {
  }
}
