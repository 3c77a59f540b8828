/** When the tree is what the analysis of its text would give, line by line. */
module Consistency {
  import opened Wrappers
  import opened Contexts
  import opened Language
  import opened LineAnalysis
  import opened Lines
  import opened SegmentTree
  import opened Labelling
  import opened Dirt

  /** The line that begins at `a` has something to analyze. */
  predicate DirtyLine(t: Segment, text: string, a: nat)
    requires a < |text|
  {
    Dirty(t.children, a, Top(text, LineEnd(text, a)))
  }

  /** The same, counting the line at `cur` in. */
  predicate Pending(t: Segment, text: string, a: nat, cur: int)
    requires a < |text|
  {
    a == cur || DirtyLine(t, text, a)
  }

  function PreviousLine(text: string, a: nat): (p: nat)
    requires 0 < a <= |text|
    ensures p < a && IsLineStart(text, p)
  {
    LineStart(text, a - 1)
  }

  // ----- the invariant -----

  /** The tree covers the text, and only invalid segments may be empty. */
  predicate Sound(t: Segment, text: string) {
    ValidRoot(t) && t.endAt == |text| && Solid(t.children)
  }

  /** The line at `a` has the contexts of its analysis from state `e`. */
  ghost predicate LineIs(lang: Language, t: Segment, text: string, a: nat, e: Context)
    requires lang.Consuming() && lang.Has(e) && e.IsContainer() && a < |text|
  {
    var line := text[a..LineEnd(text, a)];
    forall o :: a <= o < LineEnd(text, a) ==> ContextAt(t, o) == Some(LineContexts(lang, e, a == 0, line)[o - a])
  }

  /** A text with this context at its last character ends in a simple context, in a state
      other than the toplevel one. */
  predicate OpenLabel(lang: Language, c: Context) {
    lang.Has(c) && c.IsSimple() && AfterLineEnd(lang, lang.AfterSimple(c)) != Root
  }

  /** The last line of the text was analyzed from state `e` and then lost the simple segment
      at the end: the characters of that segment have the context around it. */
  ghost predicate Torn(lang: Language, t: Segment, text: string, a: nat, e: Context)
    requires lang.Consuming() && lang.Has(e) && e.IsContainer() && a < |text|
  {
    LineEnd(text, a) == |text| &&
    var labels := LineContexts(lang, e, a == 0, text[a..LineEnd(text, a)]);
    var last := labels[|text| - 1 - a];
    && OpenLabel(lang, last) && ContextAt(t, |text| - 1) == Some(last.parent)
    && forall o :: a <= o < |text| ==>
         ContextAt(t, o) == Some(labels[o - a]) || (labels[o - a] == last && ContextAt(t, o) == Some(last.parent))
  }

  /** The line was analyzed from state `e`. */
  ghost predicate AnalyzedFrom(lang: Language, t: Segment, text: string, a: nat, e: Context)
    requires lang.Consuming() && lang.Has(e) && e.IsContainer() && a < |text|
  {
    LineIs(lang, t, text, a, e) || Torn(lang, t, text, a, e)
  }

  /** `e` is a state a line may begin with, and the one the previous line ends with
      unless that line is pending. */
  ghost predicate EntryOk(lang: Language, t: Segment, text: string, a: nat, e: Context, cur: int)
    requires a < |text|
  {
    && lang.Has(e) && Stable(lang, e)
    && (if a == 0 then e == Root
        else !Pending(t, text, PreviousLine(text, a), cur) ==> ContextAt(t, a - 1) == Some(e))
  }

  ghost predicate LineOk(lang: Language, t: Segment, text: string, a: nat, cur: int)
    requires lang.Consuming() && a < |text|
  {
    exists e :: EntryOk(lang, t, text, a, e, cur) && AnalyzedFrom(lang, t, text, a, e)
  }

  /** A lost beginning lies in a pending line, or is the start of a line after one. */
  ghost predicate NonStartOk(t: Segment, text: string, q: nat, cur: int) {
    q < |text| &&
    var a := LineStart(text, q);
    a < |text| && (Pending(t, text, a, cur) || (q == a && a > 0 && Pending(t, text, PreviousLine(text, a), cur)))
  }

  /** Line terminators are in states a line may end with. */
  ghost predicate TerminatorsOk(lang: Language, t: Segment, text: string) {
    forall o :: 0 <= o < |text| && text[o] == '\n' && ContextAt(t, o).Some? ==>
      lang.Has(ContextAt(t, o).value) && Stable(lang, ContextAt(t, o).value)
  }

  /** Every line that is neither pending nor one of the `missed` ones is analyzed, from
      the state its predecessor leaves it unless that one is pending.  `cur` is a line
      that counts as pending; |text| or -1 stand for none. */
  ghost predicate Consistent(lang: Language, t: Segment, text: string, cur: int, missed: set<int>)
    requires lang.Consuming()
  {
    && (forall a :: 0 <= a < |text| && IsLineStart(text, a) && a !in missed && !Pending(t, text, a, cur) ==> LineOk(lang, t, text, a, cur))
    && TerminatorsOk(lang, t, text)
  }

  /** A segment begins at `q` whose own beginning was erased, and nothing is to be analyzed
      there. */
  ghost predicate Stray(t: Segment, text: string, q: int, cur: int) {
    NonStart(t.children, q) && !(0 <= q && NonStartOk(t, text, q, cur))
  }

  /** Lost beginnings are only where something is to be analyzed. */
  ghost predicate Regular(t: Segment, text: string) {
    forall q :: !Stray(t, text, q, -1)
  }

  lemma ConsistentWeaken(lang: Language, t: Segment, text: string, cur: int, missed: set<int>)
    requires lang.Consuming() && Consistent(lang, t, text, -1, missed)
    ensures Consistent(lang, t, text, cur, missed)
  {
    forall a | 0 <= a < |text| && IsLineStart(text, a) && a !in missed && !Pending(t, text, a, cur) ensures LineOk(lang, t, text, a, cur) {
      var e :| EntryOk(lang, t, text, a, e, -1) && AnalyzedFrom(lang, t, text, a, e);
      assert EntryOk(lang, t, text, a, e, cur);
    }
  }

  lemma TornOpen(lang: Language, t: Segment, text: string, a: nat, e: Context)
    requires lang.Consuming() && lang.Has(e) && e.IsContainer() && a < |text| && Torn(lang, t, text, a, e)
    ensures LineEnd(text, a) == |text| && text[|text| - 1] != '\n'
  {
    hide LineContexts, LineExit;
    var line := text[a..LineEnd(text, a)];
    if line[|line| - 1] == '\n' { ExitIsLast(lang, e, a == 0, line); }
  }

  // ----- the theorem: with nothing pending the tree is the scan -----

  /** A line that is neither missed nor pending, and whose predecessor is not pending,
      is analyzed from the context of the character before it. */
  lemma LineFromEntry(lang: Language, t: Segment, text: string, a: nat, e: Context, missed: set<int>)
    requires lang.Consuming() && a < |text| && a !in missed && EntryIs(lang, t, a, e)
    requires IsLineStart(text, a) && Consistent(lang, t, text, -1, missed) && !DirtyLine(t, text, a)
    requires a > 0 ==> !DirtyLine(t, text, PreviousLine(text, a))
    ensures AnalyzedFrom(lang, t, text, a, e)
  {
    assert !Pending(t, text, a, -1);
    var e' :| EntryOk(lang, t, text, a, e', -1) && AnalyzedFrom(lang, t, text, a, e');
    assert e' == e;
  }

  /** `e` is the state at the line start `a` that the text before it leaves. */
  ghost predicate EntryIs(lang: Language, t: Segment, a: nat, e: Context) {
    lang.Has(e) && e.IsContainer() && (if a == 0 then e == Root else ContextAt(t, a - 1) == Some(e))
  }

  /** Every line is analyzed from the state the text before it leaves. */
  ghost predicate Analyzed(lang: Language, t: Segment, text: string)
    requires lang.Consuming()
  {
    AnalyzedTo(lang, t, text, |text|)
  }

  /** The same for the lines that begin before `b`. */
  ghost predicate AnalyzedTo(lang: Language, t: Segment, text: string, b: int)
    requires lang.Consuming()
  {
    forall a: nat, e: Context {:trigger LineIs(lang, t, text, a, e)} ::
      a < |text| && a < b && IsLineStart(text, a) && EntryIs(lang, t, a, e) ==> LineIs(lang, t, text, a, e)
  }

  /** The scan from `a` on is the first line and the scan from the next one on. */
  lemma ScanUnfolds(lang: Language, text: string, a: nat, e: Context, o: nat)
    requires lang.Consuming() && lang.Has(e) && e.IsContainer() && a <= o < |text|
    ensures var b := LineEnd(text, a); var line := text[a..b];
      Scan(lang, text, a, e)[o - a] ==
        if o < b then LineContexts(lang, e, a == 0, line)[o - a]
        else Scan(lang, text, b, LineExit(lang, e, a == 0, line))[o - b]
  {
    hide LineContexts, LineExit;
  }

  lemma ScanHere(lang: Language, t: Segment, text: string, a: nat, e: Context, o: nat)
    requires lang.Consuming() && lang.Has(e) && e.IsContainer() && a <= o < |text| && o < LineEnd(text, a)
    requires LineIs(lang, t, text, a, e)
    ensures ContextAt(t, o) == Some(Scan(lang, text, a, e)[o - a])
  {
    ScanUnfolds(lang, text, a, e, o);
  }

  /** The state after an analyzed line. */
  lemma NextEntry(lang: Language, t: Segment, text: string, a: nat, e: Context)
    requires lang.Consuming() && a < |text| && lang.Has(e) && e.IsContainer() && LineIs(lang, t, text, a, e)
    requires LineEnd(text, a) < |text|
    ensures EntryIs(lang, t, LineEnd(text, a), LineExit(lang, e, a == 0, text[a..LineEnd(text, a)]))
  {
    var b := LineEnd(text, a);
    ExitIsLast(lang, e, a == 0, text[a..b]);
    assert ContextAt(t, b - 1) == Some(LineContexts(lang, e, a == 0, text[a..b])[b - 1 - a]);
  }

  /** If no line is pending, every character has the context that one scan of the
      whole text gives it. */
  lemma {:induction false} ScanFrom(lang: Language, t: Segment, text: string, a: nat, e: Context, o: nat)
    requires lang.Consuming() && a <= o < |text| && IsLineStart(text, a) && EntryIs(lang, t, a, e)
    requires AnalyzedTo(lang, t, text, o + 1)
    ensures ContextAt(t, o) == Some(Scan(lang, text, a, e)[o - a])
    decreases |text| - a
  {
    hide LineIs, Scan, LineContexts, LineExit;
    var b := LineEnd(text, a);
    assert LineIs(lang, t, text, a, e);
    if o < b {
      ScanHere(lang, t, text, a, e, o);
    } else {
      NextEntry(lang, t, text, a, e);
      ScanFrom(lang, t, text, b, LineExit(lang, e, a == 0, text[a..b]), o);
      ScanUnfolds(lang, text, a, e, o);
    }
  }

  /** With the lines between `a` and `b` right, the scan from `a` goes on at `b` from the state
      there. */
  lemma {:induction false} ScanJoins(lang: Language, t: Segment, text: string, a: nat, e: Context, b: nat, f: Context, o: nat)
    requires lang.Consuming() && a <= b <= o < |text| && IsLineStart(text, a) && IsLineStart(text, b)
    requires EntryIs(lang, t, a, e) && EntryIs(lang, t, b, f) && AnalyzedTo(lang, t, text, b)
    ensures Scan(lang, text, a, e)[o - a] == Scan(lang, text, b, f)[o - b]
    decreases |text| - a
  {
    hide LineIs, Scan, LineContexts, LineExit;
    if a < b {
      var m := LineEnd(text, a);
      LinesMeetAt(text, a, b);
      assert LineIs(lang, t, text, a, e);
      NextEntry(lang, t, text, a, e);
      ScanUnfolds(lang, text, a, e, o);
      ScanJoins(lang, t, text, m, LineExit(lang, e, a == 0, text[a..m]), b, f, o);
    } else {
      assert e == f;
    }
  }

  /** No line has anything to analyze. */
  predicate AllClean(t: Segment, text: string) {
    forall a :: 0 <= a < |text| && IsLineStart(text, a) ==> !DirtyLine(t, text, a)
  }

  /** If every line is analyzed from the state the text before it leaves, every character
      has the context that one scan of the whole text gives it. */
  lemma ScanTheorem(lang: Language, t: Segment, text: string, o: nat)
    requires lang.Consuming() && Analyzed(lang, t, text) && o < |text|
    ensures ContextAt(t, o) == Some(Scan(lang, text, 0, Root)[o])
  {
    ScanFrom(lang, t, text, 0, Root, o);
  }

  /** The line at `a` is right: analyzed from the state the text before it leaves. */
  ghost predicate Right(lang: Language, t: Segment, text: string, a: nat)
    requires lang.Consuming() && a < |text|
  {
    forall e: Context {:trigger LineIs(lang, t, text, a, e)} :: EntryIs(lang, t, a, e) ==> LineIs(lang, t, text, a, e)
  }

  ghost predicate AllRight(lang: Language, t: Segment, text: string, missed: set<int>)
    requires lang.Consuming()
  {
    forall a: nat :: a in missed && a < |text| && IsLineStart(text, a) ==> Right(lang, t, text, a)
  }

  /** The lines before `b` are right if they are analyzed, and the missed ones among them are
      right, and if the last line, when it is one of them, is not torn. */
  lemma LinesAreRight(lang: Language, t: Segment, text: string, missed: set<int>, b: int)
    requires lang.Consuming() && Consistent(lang, t, text, -1, missed)
    requires forall a: nat :: a < |text| && a < b && IsLineStart(text, a) ==>
      !DirtyLine(t, text, a) && (a in missed ==> Right(lang, t, text, a))
    requires forall a: nat, e :: a < |text| && a < b && IsLineStart(text, a) && EntryIs(lang, t, a, e) ==> !Torn(lang, t, text, a, e)
    ensures AnalyzedTo(lang, t, text, b)
  {
    hide LineIs, Torn;
    forall a: nat, e: Context | a < |text| && a < b && IsLineStart(text, a) && EntryIs(lang, t, a, e)
      ensures LineIs(lang, t, text, a, e)
    {
      if a in missed { assert Right(lang, t, text, a); } else { LineFromEntry(lang, t, text, a, e, missed); }
    }
  }

  /** Every character has the context that one scan of the text gives it. */
  ghost predicate IsScan(lang: Language, t: Segment, text: string)
    requires lang.Consuming()
  {
    forall o :: 0 <= o < |text| ==> ContextAt(t, o) == Some(Scan(lang, text, 0, Root)[o])
  }

  /** In a tree that is the scan every line is right. */
  lemma {:induction false} ScanLine(lang: Language, t: Segment, text: string, a: nat, e: Context, b: nat, f: Context)
    requires lang.Consuming() && a <= b < |text| && IsLineStart(text, a) && IsLineStart(text, b)
    requires EntryIs(lang, t, a, e) && EntryIs(lang, t, b, f)
    requires forall o :: a <= o < |text| ==> ContextAt(t, o) == Some(Scan(lang, text, a, e)[o - a])
    ensures LineIs(lang, t, text, b, f)
    decreases |text| - a
  {
    hide Scan, LineContexts, LineExit;
    var m := LineEnd(text, a);
    forall o | a <= o < |text|
      ensures ContextAt(t, o) == Some(if o < m then LineContexts(lang, e, a == 0, text[a..m])[o - a]
                                      else Scan(lang, text, m, LineExit(lang, e, a == 0, text[a..m]))[o - m])
    {
      ScanUnfolds(lang, text, a, e, o);
    }
    if a < b {
      LinesMeetAt(text, a, b);
      NextEntry(lang, t, text, a, e);
      ScanLine(lang, t, text, m, LineExit(lang, e, a == 0, text[a..m]), b, f);
    }
  }

  lemma LinesMeetAt(text: string, a: nat, b: nat)
    requires a < b <= |text| && IsLineStart(text, a) && IsLineStart(text, b)
    ensures LineEnd(text, a) <= b
  {
    assert text[b - 1] == '\n';
  }

  // ----- ranges to analyze -----

  /** Nothing is to be analyzed before `y`. */
  predicate CleanBefore(t: Segment, y: int) {
    !Dirty(t.children, 0, y)
  }

  lemma {:induction false} DirtySplit(cs: seq<Segment>, x: int, m: int, y: int)
    requires Dirty(cs, x, y) && x <= m <= y
    ensures Dirty(cs, x, m) || Dirty(cs, m, y)
    decreases cs
  {
    if cs[0].IsInvalid() && Meets(cs[0], x, y) {
    } else if Dirty(cs[0].children, x, y) {
      DirtySplit(cs[0].children, x, m, y);
    } else {
      DirtySplit(cs[1..], x, m, y);
    }
  }

  /** An invalid character makes the ranges around it dirty. */
  lemma {:induction false} InvalidIsDirty(cs: seq<Segment>, o: int, outer: Mark, x: int, y: int)
    requires MarkIn(cs, o, outer).context == None && outer.context.Some? && x <= o < y
    ensures Dirty(cs, x, y)
    decreases cs
  {
    if cs[0].Covers(o) {
      if cs[0].context.Some? { InvalidIsDirty(cs[0].children, o, Own(cs[0]), x, y); }
    } else {
      InvalidIsDirty(cs[1..], o, outer, x, y);
    }
  }

  lemma LinesBefore(text: string, a: nat, b: nat)
    requires a < b <= |text| && IsLineStart(text, a) && IsLineStart(text, b)
    ensures LineEnd(text, a) <= b && Top(text, LineEnd(text, a)) <= b
  {
    assert text[b - 1] == '\n';
  }

  lemma CleanLine(t: Segment, text: string, a: nat, b: nat)
    requires a < b <= |text| && IsLineStart(text, a) && IsLineStart(text, b) && CleanBefore(t, b)
    ensures !DirtyLine(t, text, a)
  {
    LinesBefore(text, a, b);
    if DirtyLine(t, text, a) {
      DirtyWiden(t.children, a, Top(text, LineEnd(text, a)), 0, b);
    }
  }

  // ----- a lost beginning is never in the toplevel context -----

  lemma {:induction false} NonStartCovered(cs: seq<Segment>, lo: int, hi: int, p: Option<Context>, q: int)
    requires ValidForest(cs, lo, hi, p) && Solid(cs) && NonStart(cs, q)
    ensures Covered(cs, q)
    decreases cs
  {
    ForestBounds(cs, lo, hi, p);
    assert cs == [cs[0]] + cs[1..];
    CoveredAppend([cs[0]], cs[1..], q);
    CoveredSingle(cs[0], q);
    if cs[0].IsContainer() && !cs[0].isStart && cs[0].startAt == q {
    } else if NonStart(cs[0].children, q) {
      NonStartCovered(cs[0].children, cs[0].startAt, cs[0].endAt, cs[0].context, q);
      ForestBounds(cs[0].children, cs[0].startAt, cs[0].endAt, cs[0].context);
    } else {
      NonStartCovered(cs[1..], cs[0].endAt, hi, p, q);
    }
  }

  lemma {:induction false} CoveredNotRoot(cs: seq<Segment>, lo: int, hi: int, p: Option<Context>, o: int, outer: Mark)
    requires ValidForest(cs, lo, hi, p) && Covered(cs, o)
    ensures MarkIn(cs, o, outer).context != Some(Root)
    decreases cs
  {
    if cs[0].Covers(o) {
      var c := cs[0];
      if Covered(c.children, o) {
        CoveredNotRoot(c.children, c.startAt, c.endAt, c.context, o, Own(c));
      } else {
        MarkUncovered(c.children, o, Own(c));
      }
    } else {
      var i :| 0 <= i < |cs| && cs[i].Covers(o);
      assert cs[1..][i - 1] == cs[i];
      CoveredNotRoot(cs[1..], cs[0].endAt, hi, p, o, outer);
    }
  }

  lemma NonStartNotRoot(t: Segment, q: int)
    requires ValidRoot(t) && Solid(t.children) && NonStart(t.children, q)
    ensures 0 <= q < t.endAt && ContextAt(t, q) != Some(Root)
  {
    NonStartCovered(t.children, 0, t.endAt, t.context, q);
    ForestBounds(t.children, 0, t.endAt, t.context);
    CoveredNotRoot(t.children, 0, t.endAt, t.context, q, Own(t));
  }
}
