/** The end of `update_syntax` when the analysis has reached the end of the text: a mark made
    there is removed again, which may cost the last simple segment its context. */
module SyntaxEnd {
  import opened Wrappers
  import opened Contexts
  import opened Language
  import opened LineAnalysis
  import opened Lines
  import opened SegmentTree
  import opened SegmentRemove
  import opened Labelling
  import opened Dirt
  import opened Consistency
  import opened SyntaxRound
  import opened Interruption
  import opened OpenEnd
  import TreeUpdate

  lemma NothingLeft(v: Segment, text: string, ls: nat)
    requires Sound(v, text) && CleanBefore(v, |text|) && ls <= |text| && !Dirty(v.children, ls, |text| + 1)
    ensures InvalidCount(v.children) == 0
  {
    if Dirty(v.children, 0, |text| + 1) {
      DirtySplit(v.children, 0, |text|, |text| + 1);
      DirtyWiden(v.children, |text|, |text| + 1, ls, |text| + 1);
    }
    CleanCount(v.children, 0, v.endAt, v.context);
  }

  lemma NoneInvalid(v: Segment)
    requires ValidRoot(v) && forall x, y :: !Dirty(v.children, x, y)
    ensures InvalidCount(v.children) == 0
  {
    CleanCount(v.children, 0, v.endAt, v.context);
  }

  lemma CountIsClean(v: Segment, text: string)
    requires Sound(v, text) && InvalidCount(v.children) == 0
    ensures AllClean(v, text) && forall o :: 0 <= o < |text| ==> ContextAt(v, o).Some?
  {
    forall a | 0 <= a < |text| && IsLineStart(text, a) ensures !DirtyLine(v, text, a) {
      CountZero(v.children, a, Top(text, LineEnd(text, a)));
    }
    forall o | 0 <= o < |text| ensures ContextAt(v, o).Some? {
      CountZero(v.children, o, o + 1);
      if ContextAt(v, o) == None { InvalidIsDirty(v.children, o, Own(v), o, o + 1); }
    }
  }

  lemma EndClean(w: Segment, text: string)
    requires Sound(w, text) && InvalidCount(w.children) == 0
    ensures forall y :: CleanBefore(w, y)
    ensures forall b: nat :: b < |text| ==> !DirtyLine(w, text, b)
  {
    forall y ensures CleanBefore(w, y) {
      CountZero(w.children, 0, y);
    }
    forall b: nat | b < |text| ensures !DirtyLine(w, text, b) {
      CountZero(w.children, b, Top(text, LineEnd(text, b)));
    }
  }

  // ----- the mark at the end of the text -----

  lemma RemovedSound(u: Segment, w: Segment, p: Path, text: string)
    requires Sound(u, text) && InvalidCount(u.children) == 0
    requires Marked(u, w, |text|) && TreeUpdate.InsertedAt(u, w, |text|, 0)
    requires p != [] && IsPath(w, p) && At(w, p).IsInvalid()
    ensures ValidRoot(w) && w.IsContainer() && Sound(RemoveAt(w, p), text) && InvalidCount(RemoveAt(w, p).children) == 0
    ensures forall q :: NonStart(RemoveAt(w, p).children, q) ==> NonStart(w.children, q)
    ensures AllClean(u, text) && forall o :: 0 <= o < |text| ==> ContextAt(u, o).Some?
  {
    RemoveShape(w, p);
    RemoveDirt(w, p);
    RemoveCount(w, p);
    TreeUpdate.InsertedCount(u, w, |text|, 0);
    CountIsClean(u, text);
  }

  /** A character that is not in the removed segment keeps its context. */
  lemma EndKeeps(u: Segment, w: Segment, p: Path, text: string, o: nat)
    requires ValidRoot(w) && p != [] && IsPath(w, p) && At(w, p).IsInvalid() && o < |text|
    requires ContextAt(u, o).Some? && ContextAt(w, o) == ContextAt(u, o)
    ensures ContextAt(RemoveAt(w, p), o) == ContextAt(u, o)
  {
    RemoveContexts(w, p, o);
  }

  /** The last line with the contexts of its analysis, torn. */
  lemma LineTorn(lang: Language, u: Segment, v: Segment, text: string, c: Context)
    requires lang.Consuming() && text != "" && lang.Has(c) && c.IsContainer() && LineIs(lang, u, text, LastLine(text), c)
    requires ContextAt(u, |text| - 1).Some? && OpenLabel(lang, ContextAt(u, |text| - 1).value)
    requires var d := ContextAt(u, |text| - 1).value;
      && ContextAt(v, |text| - 1) == Some(d.parent)
      && forall o :: 0 <= o < |text| ==> ContextAt(v, o) == ContextAt(u, o) || (ContextAt(u, o) == Some(d) && ContextAt(v, o) == Some(d.parent))
    ensures Torn(lang, v, text, LastLine(text), c)
  {
    hide LineContexts;
    var a := LastLine(text);
    var labels := LineContexts(lang, c, a == 0, text[a..LineEnd(text, a)]);
    assert forall o :: a <= o < |text| ==> ContextAt(u, o) == Some(labels[o - a]);
    assert ContextAt(u, |text| - 1) == Some(labels[|text| - 1 - a]);
  }

  /** When the text ends in a simple segment, the last line is torn and nothing else changes. */
  lemma EndCut(lang: Language, u: Segment, w: Segment, p: Path, text: string, missed: set<int>, c: Context)
    requires lang.Consuming() && Sound(u, text) && Consistent(lang, u, text, -1, missed) && InvalidCount(u.children) == 0 && text != ""
    requires Marked(u, w, |text|) && TreeUpdate.InsertedAt(u, w, |text|, 0) && p != [] && IsPath(w, p) && At(w, p).IsInvalid()
    requires EntryIs(lang, u, LastLine(text), c) && LineIs(lang, u, text, LastLine(text), c)
    requires EndsSimple(u) && OpenLabel(lang, ContextAt(u, |text| - 1).value)
    ensures var v := RemoveAt(w, p);
      && Consistent(lang, v, text, -1, missed) && ContextAt(v, |text| - 1) == Some(ContextAt(u, |text| - 1).value.parent)
      && forall o :: 0 <= o < LastLine(text) ==> ContextAt(v, o) == ContextAt(u, o)
  {
    hide Consistent, Marked, TreeUpdate.InsertedAt, Dirty, NonStart, OpenLabel, LineIs, RemoveAt;
    var v := RemoveAt(w, p);
    RemovedSound(u, w, p, text);
    MarkLoses(u, w, text);
    EndTorn(u, w, p);
    LineTorn(lang, u, v, text, c);
    EndOthers(lang, u, w, p, text, missed);
    EndTerminators(lang, u, v, text, missed);
    ConsistentCopy(lang, u, v, text, missed, LastLine(text), c);
    forall o | 0 <= o < LastLine(text) ensures ContextAt(v, o) == ContextAt(u, o) {
      BeforeLast(text, o);
    }
  }

  lemma MarkLoses(u: Segment, w: Segment, text: string)
    requires Sound(u, text) && Marked(u, w, |text|)
    ensures w.endAt == u.endAt == |text|
    ensures forall o :: 0 <= o < |text| ==> ContextAt(w, o) == ContextAt(u, o) || (ContextAt(w, o) == None && MayLose(u, o, |text|, |text|))
  {
  }

  lemma BeforeLast(text: string, o: nat)
    requires text != "" && o < LastLine(text)
    ensures var a := LineStart(text, o); a < |text| && IsLineStart(text, a) && a != LastLine(text) && a <= o < LineEnd(text, a)
  {
    LineOf(text, o);
  }

  lemma EndOthers(lang: Language, u: Segment, w: Segment, p: Path, text: string, missed: set<int>)
    requires lang.Consuming() && Sound(u, text) && Consistent(lang, u, text, -1, missed) && text != "" && ValidRoot(w)
    requires Marked(u, w, |text|) && p != [] && IsPath(w, p) && At(w, p).IsInvalid()
    requires forall o :: 0 <= o < |text| ==> ContextAt(u, o).Some?
    ensures forall a: nat, o :: a < |text| && IsLineStart(text, a) && a != LastLine(text) && a <= o < LineEnd(text, a) ==>
      ContextAt(RemoveAt(w, p), o) == ContextAt(u, o)
  {
    hide RemoveAt, Marked;
    forall a: nat, o | a < |text| && IsLineStart(text, a) && a != LastLine(text) && a <= o < LineEnd(text, a)
      ensures ContextAt(RemoveAt(w, p), o) == ContextAt(u, o)
    {
      LastOnly(text, a);
      EndMarkInLine(lang, u, w, text, a, o);
      EndKeeps(u, w, p, text, o);
    }
  }

  lemma EndTerminators(lang: Language, u: Segment, v: Segment, text: string, missed: set<int>)
    requires lang.Consuming() && Consistent(lang, u, text, -1, missed) && text != ""
    requires ContextAt(u, |text| - 1).Some? && ContextAt(u, |text| - 1).value.IsSimple()
    requires forall a: nat, o :: a < |text| && IsLineStart(text, a) && a != LastLine(text) && a <= o < LineEnd(text, a) ==> ContextAt(v, o) == ContextAt(u, o)
    ensures TerminatorsOk(lang, v, text)
    ensures forall o :: 0 <= o < |text| && text[o] == '\n' ==> ContextAt(v, o) == ContextAt(u, o)
  {
    forall o | 0 <= o < |text| && text[o] == '\n' ensures ContextAt(v, o) == ContextAt(u, o) {
      if o < LastLine(text) { BeforeLast(text, o); }
    }
  }

  /** Otherwise nothing changes at all. */
  lemma EndWhole(lang: Language, u: Segment, w: Segment, p: Path, text: string, missed: set<int>)
    requires lang.Consuming() && Sound(u, text) && Consistent(lang, u, text, -1, missed) && InvalidCount(u.children) == 0 && text != ""
    requires Marked(u, w, |text|) && TreeUpdate.InsertedAt(u, w, |text|, 0) && p != [] && IsPath(w, p) && At(w, p).IsInvalid()
    requires !EndsSimple(u)
    ensures var v := RemoveAt(w, p); Consistent(lang, v, text, -1, missed) && forall o :: 0 <= o < |text| ==> ContextAt(v, o) == ContextAt(u, o)
  {
    hide Consistent, Dirty, NonStart, RemoveAt;
    var v := RemoveAt(w, p);
    RemovedSound(u, w, p, text);
    forall o | 0 <= o < |text| ensures ContextAt(v, o) == ContextAt(u, o) {
      EndKeeps(u, w, p, text, o);
    }
    SameTerminators(lang, u, v, text, missed);
    ConsistentCopy(lang, u, v, text, missed, -1, Root);
  }

  lemma SameTerminators(lang: Language, u: Segment, v: Segment, text: string, missed: set<int>)
    requires lang.Consuming() && Consistent(lang, u, text, -1, missed) && forall o :: 0 <= o < |text| ==> ContextAt(v, o) == ContextAt(u, o)
    ensures TerminatorsOk(lang, v, text)
  {
  }

  // ----- settling the end -----

  /** At the end of the text the context of the last character is one of an open end
      exactly if the state is not the toplevel one and the context is simple. */
  lemma EndLabel(lang: Language, u: Segment, text: string, c: Context)
    requires lang.Consuming() && Sound(u, text) && text != "" && lang.Has(c) && c.IsContainer()
    requires LineIs(lang, u, text, LastLine(text), c)
    ensures ContextAt(u, |text| - 1).Some?
    ensures OpenLabel(lang, ContextAt(u, |text| - 1).value) <==>
      EndsSimple(u) && LineExit(lang, c, LastLine(text) == 0, text[LastLine(text)..]) != Root
  {
    hide LineContexts, LineExit, OpenLabel;
    var ls := LastLine(text);
    var line := text[ls..];
    assert line == text[ls..LineEnd(text, ls)];
    assert ContextAt(u, |text| - 1) == Some(LineContexts(lang, c, ls == 0, line)[|line| - 1]);
    LabelOpen(lang, c, ls == 0, line);
  }

  lemma LabelOpen(lang: Language, c: Context, first: bool, line: string)
    requires lang.Consuming() && lang.Has(c) && c.IsContainer() && line != ""
    ensures var last := LineContexts(lang, c, first, line)[|line| - 1];
      OpenLabel(lang, last) <==> last.IsSimple() && LineExit(lang, c, first, line) != Root
  {
    hide LineContexts, LineExit;
    if LineContexts(lang, c, first, line)[|line| - 1].IsSimple() { SimpleLineEnd(lang, c, first, line); }
  }

  /** The last character has the context that was around its own. */
  ghost predicate EndRelabelled(u: Segment, v: Segment, text: string) {
    var c := ContextAt(u, |text| - 1);
    c.Some? && c.value.Child? && ContextAt(v, |text| - 1) == Some(c.value.parent)
  }

  /** The end of `update_syntax` at the end of the text: a mark made there is removed again.
      The tree stays consistent, and the end is settled. */
  method SettleEnd(lang: Language, u: Segment, text: string, need: bool, hint: nat, ghost c: Context, ghost missed: set<int>)
    returns (v: Segment)
    requires lang.Consuming() && Sound(u, text) && Consistent(lang, u, text, -1, missed) && InvalidCount(u.children) == 0 && text != ""
    requires EntryIs(lang, u, LastLine(text), c) && LineIs(lang, u, text, LastLine(text), c)
    requires need <==> LineExit(lang, c, LastLine(text) == 0, text[LastLine(text)..]) != Root
    ensures Sound(v, text) && InvalidCount(v.children) == 0
    ensures Consistent(lang, v, text, -1, missed) && EndSettled(lang, v, text, -1, missed)
    ensures forall o :: 0 <= o < LastLine(text) ==> ContextAt(v, o) == ContextAt(u, o)
    ensures forall q :: NonStart(v.children, q) && q != |text| ==> NonStart(u.children, q)
    ensures if need && EndsSimple(u) then EndRelabelled(u, v, text)
            else forall o :: 0 <= o < |text| ==> ContextAt(v, o) == ContextAt(u, o)
  {
    hide Consistent, LineIs, LineExit, OpenLabel, Marked, TreeUpdate.InsertedAt, Dirty, NonStart;
    v := u;
    EndLabel(lang, u, text, c);
    if need {
      v := MarkOffset(u, |text|, hint);
      TreeUpdate.InsertedCount(u, v, |text|, 0);
    }
    var first := FirstInvalid(v);
    if first.Some? {
      var p := first.value;
      if !need {
        PathDirty(v, p, At(v, p).startAt, At(v, p).startAt + 1);
        CountZero(v.children, At(v, p).startAt, At(v, p).startAt + 1);
      }
      RemovedSound(u, v, p, text);
      MarkedStarts(u, v, text);
      if EndsSimple(u) { EndCut(lang, u, v, p, text, missed, c); } else { EndWhole(lang, u, v, p, text, missed); }
      v := RemoveAt(v, p);
    } else {
      NoneInvalid(v);
    }
    if need && EndsSimple(u) { ParentLabel(lang, ContextAt(u, |text| - 1).value); }
  }

  lemma ParentLabel(lang: Language, c: Context)
    requires OpenLabel(lang, c)
    ensures c.Child? && !OpenLabel(lang, c.parent)
  {
  }

  lemma MarkedStarts(u: Segment, w: Segment, text: string)
    requires Sound(u, text) && Marked(u, w, |text|)
    ensures forall q :: NonStart(w.children, q) && q < |text| ==> NonStart(u.children, q)
    ensures forall q :: NonStart(w.children, q) && q > |text| ==> NonStart(u.children, q)
  {
    forall q | NonStart(w.children, q) && q > |text| ensures NonStart(u.children, q) {
      assert NonStart(u.children, q - 0);
    }
  }
}
