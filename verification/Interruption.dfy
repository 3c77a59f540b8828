/** Stopping the analysis: the next line, or the end of the text, is marked as to be
    analyzed (`insert_range` with length zero at the end of `update_syntax`). */
module Interruption {
  import opened Wrappers
  import opened Contexts
  import opened Language
  import opened LineAnalysis
  import opened Lines
  import opened SegmentTree
  import opened SegmentInsert
  import opened SegmentRemove
  import opened InvalidList
  import opened Labelling
  import opened Dirt
  import opened DirtMoves
  import opened Consistency
  import opened LineStep
  import opened SegmentLookup
  import TreeUpdate

  /** `w` is `u` after `offset` was marked. */
  ghost predicate Marked(u: Segment, w: Segment, offset: nat) {
    && ValidRoot(w) && w.endAt == u.endAt
    && HasInvalid(w.children, offset, offset)
    && (forall o :: 0 <= o < u.endAt ==>
          ContextAt(w, o) == ContextAt(u, o) || (ContextAt(w, o) == None && MayLose(u, o, offset, offset)))
    && Follows(u, w, offset, offset, 0)
  }

  method MarkOffset(u: Segment, offset: nat, hint: nat) returns (w: Segment)
    requires ValidRoot(u) && offset <= u.endAt
    ensures Marked(u, w, offset) && TreeUpdate.InsertedAt(u, w, offset, 0)
  {
    w := TreeUpdate.InsertRange(u, offset, 0, hint);
    forall o | 0 <= o < u.endAt
      ensures ContextAt(w, o) == ContextAt(u, o) || (ContextAt(w, o) == None && MayLose(u, o, offset, offset))
    {
      assert Moved(o, offset, 0) == o;
    }
  }

  lemma MarkedSound(u: Segment, w: Segment, text: string, offset: nat)
    requires Sound(u, text) && Marked(u, w, offset)
    ensures Sound(w, text)
  {
  }

  /** Line terminators are never in simple segments, so they keep their contexts. */
  lemma TerminatorKept(lang: Language, u: Segment, w: Segment, text: string, offset: nat, o: nat)
    requires Sound(u, text) && TerminatorsOk(lang, u, text) && Marked(u, w, offset)
    requires o < |text| && text[o] == '\n'
    ensures ContextAt(w, o) == ContextAt(u, o)
  {
  }

  lemma MarkedTerminators(lang: Language, u: Segment, w: Segment, text: string, offset: nat)
    requires Sound(u, text) && TerminatorsOk(lang, u, text) && Marked(u, w, offset)
    ensures TerminatorsOk(lang, w, text)
  {
    forall o | 0 <= o < |text| && text[o] == '\n' && ContextAt(w, o).Some?
      ensures lang.Has(ContextAt(w, o).value) && Stable(lang, ContextAt(w, o).value)
    {
      TerminatorKept(lang, u, w, text, offset, o);
    }
  }

  // ----- what marking adds -----

  /** A range away from the mark is to be analyzed only if it was before, or if the
      simple segment that was made invalid lies in it. */
  ghost predicate NothingAdded(before: seq<Segment>, after: seq<Segment>, place: Segment, offset: int, x: int, y: int) {
    x < y && (y <= offset || offset < x) && Dirty(after, x, y) ==>
      Dirty(before, x, y) || (place.IsSimple() && Meets(place, x, y))
  }

  lemma ListAdded(l: seq<Segment>, m: seq<Segment>, m': seq<Segment>, r: seq<Segment>, place: Segment, offset: int, x: int, y: int)
    requires NothingAdded(m, m', place, offset, x, y)
    ensures NothingAdded(l + m + r, l + m' + ShiftAll(r, 0), place, offset, x, y)
  {
    DirtyAppend(l + m', ShiftAll(r, 0), x, y);
    DirtyAppend(l, m', x, y);
    ShiftDirty(r, 0, x, y);
    assert x + 0 == x && y + 0 == y;
    DirtyAppend(l + m, r, x, y);
    DirtyAppend(l, m, x, y);
  }

  lemma HereAdded(s: Segment, k: nat, offset: int, x: int, y: int)
    requires Valid(s) && IsPlace(s, [], k, offset)
    ensures NothingAdded([s], InsertHere(s, k, offset, 0), s, offset, x, y)
  {
    var i := InvalidSegment(offset, offset);
    DirtySingle(s, x, y);
    DirtySingle(i, x, y);
    if s.IsSimple() && s.startAt < offset < s.endAt {
      var a, b := s.(endAt := offset), Segment(s.context, offset, s.endAt, false, []);
      assert InsertHere(s, k, offset, 0) == [a] + [i] + [b];
      DirtyAppend([a] + [i], [b], x, y);
      DirtyAppend([a], [i], x, y);
      DirtySingle(a, x, y);
      DirtySingle(b, x, y);
    } else {
      DirtySingle(InsertHere(s, k, offset, 0)[0], x, y);
      if s.IsContainer() {
        assert s.children == s.children[..k] + [] + s.children[k..];
        ListAdded(s.children[..k], [], [i], s.children[k..], s, offset, x, y);
      }
    }
  }

  lemma {:induction false} AlongAdded(s: Segment, path: Path, k: nat, offset: int, x: int, y: int)
    requires Valid(s) && IsPlace(s, path, k, offset) && IsPath(s, path) && k <= |At(s, path).children|
    ensures NothingAdded([s], InsertAlong(s, path, k, offset, 0), At(s, path), offset, x, y)
    decreases path
  {
    if path == [] {
      HereAdded(s, k, offset, x, y);
    } else {
      var i, c := path[0], s.children[path[0]];
      var l, m, r := s.children[..i], InsertAlong(c, path[1..], k, offset, 0), s.children[i + 1..];
      ChildBounds(s, i);
      AlongAdded(c, path[1..], k, offset, x, y);
      ListAdded(l, [c], m, r, At(s, path), offset, x, y);
      assert s.children == l + [c] + r;
      DirtySingle(s, x, y);
      DirtySingle(InsertAlong(s, path, k, offset, 0)[0], x, y);
    }
  }

  /** Line terminators are not in simple segments. */
  lemma PlaceInLine(lang: Language, u: Segment, text: string, path: Path, o: nat)
    requires Sound(u, text) && TerminatorsOk(lang, u, text) && IsPath(u, path) && At(u, path).IsSimple()
    requires o < |text| && text[o] == '\n'
    ensures !At(u, path).Covers(o)
  {
    if At(u, path).Covers(o) {
      WithinSegment(u, path);
      LeafMark(u, path, o);
    }
  }

  /** A mark at the start of a line adds nothing to the text before it, nor to later
      lines. */
  lemma MarkAdds(lang: Language, u: Segment, w: Segment, text: string, le: nat, b: nat, x: nat, y: nat)
    requires Sound(u, text) && TerminatorsOk(lang, u, text) && Marked(u, w, le) && TreeUpdate.InsertedAt(u, w, le, 0)
    requires 0 < le < |text| && IsLineStart(text, le) && x < y && (y == le || (le < b <= x && b < |text| && IsLineStart(text, b)))
    ensures Dirty(w.children, x, y) ==> Dirty(u.children, x, y)
  {
    hide Sound, TerminatorsOk, Marked, Innermost, Dirty;
    SoundRoot(u, text);
    if w != u {
      var path: Path, k: nat :| IsPlace(u, path, k, le) && IsPath(u, path) && Innermost(u, path, le) && w == Inserted(u, path, k, le, 0);
      PlaceIsPath(u, path, k, le);
      assert InsertAlong(u, path, k, le, 0) == [w];
      AlongAdded(u, path, k, le, x, y);
      DirtySingle(u, x, y);
      DirtySingle(w, x, y);
      assert w.context == u.context && u.context == Some(Root);
      if At(u, path).IsSimple() { PlaceInLine(lang, u, text, path, if y == le then le - 1 else b - 1); }
    }
  }

  lemma SoundRoot(u: Segment, text: string)
    requires Sound(u, text)
    ensures ValidRoot(u) && u.endAt == |text|
  {
  }

  // ----- the next line -----

  /** An invalid segment that touches `o` either makes what follows dirty or covers the
      character before `o`. */
  lemma {:induction false} TouchInvalid(cs: seq<Segment>, lo: int, hi: int, p: Option<Context>, o: int, y: int, outer: Mark)
    requires ValidForest(cs, lo, hi, p) && HasInvalid(cs, o, o) && o < y
    ensures Dirty(cs, o, y) || (Covered(cs, o - 1) && MarkIn(cs, o - 1, outer).context == None)
    decreases cs
  {
    var c := cs[0];
    assert cs == [c] + cs[1..];
    CoveredAppend([c], cs[1..], o - 1);
    CoveredSingle(c, o - 1);
    if c.IsInvalid() && c.startAt <= o <= c.endAt {
      assert c.Covers(o - 1) ==> MarkAt(c, o - 1) == Own(c);
    } else if HasInvalid(c.children, o, o) {
      TouchInvalid(c.children, c.startAt, c.endAt, c.context, o, y, Own(c));
      ForestBounds(c.children, c.startAt, c.endAt, c.context);
    } else {
      TouchInvalid(cs[1..], c.endAt, hi, p, o, y, outer);
      ForestBounds(cs[1..], c.endAt, hi, p);
    }
  }

  /** The marked line is to be analyzed. */
  lemma NextIsDirty(lang: Language, u: Segment, w: Segment, text: string, le: nat)
    requires Sound(u, text) && TerminatorsOk(lang, u, text) && CleanBefore(u, le)
    requires 0 < le < |text| && IsLineStart(text, le) && Marked(u, w, le)
    ensures DirtyLine(w, text, le)
  {
    TouchInvalid(w.children, 0, w.endAt, w.context, le, Top(text, LineEnd(text, le)), Own(w));
    TerminatorKept(lang, u, w, text, le, le - 1);
    if ContextAt(u, le - 1) == None { InvalidIsDirty(u.children, le - 1, Own(u), 0, le); }
  }

  /** What lies in a line without anything to analyze keeps its context. */
  lemma KeptWhenClean(u: Segment, w: Segment, text: string, offset: nat, a: nat, o: nat)
    requires Sound(u, text) && Marked(u, w, offset) && a < |text| && !DirtyLine(w, text, a) && a <= o < LineEnd(text, a)
    ensures ContextAt(w, o).Some? && ContextAt(w, o) == ContextAt(u, o)
  {
    if ContextAt(w, o) == None { InvalidIsDirty(w.children, o, Own(w), a, Top(text, LineEnd(text, a))); }
  }

  /** Characters before the mark keep their contexts, and so do those of later lines: a
      simple segment that is at the mark lies in its line. */
  lemma MarkKeeps(lang: Language, u: Segment, w: Segment, text: string, le: nat, b: nat, o: nat)
    requires Sound(u, text) && TerminatorsOk(lang, u, text) && Marked(u, w, le)
    requires 0 < le <= |text| && IsLineStart(text, le) && o < |text| && (o < le || (le < b <= o && IsLineStart(text, b)))
    ensures ContextAt(w, o) == ContextAt(u, o)
  {
    if o >= le && MayLose(u, o, le, le) { SpanBack(u.children, 0, u.endAt, u.context, b - 1, o, Own(u)); }
  }

  lemma StillDirty(u: Segment, w: Segment, text: string, le: nat, a: nat)
    requires Sound(u, text) && Marked(u, w, le) && le < |text| && IsLineStart(text, le)
    requires a < |text| && IsLineStart(text, a) && a != le && DirtyLine(u, text, a)
    ensures DirtyLine(w, text, a)
  {
    if a < le {
      LinesBefore(text, a, le);
    } else {
      assert Dirty(w.children, a + 0, Top(text, LineEnd(text, a)) + 0);
    }
  }

  lemma MarkedLine(lang: Language, u: Segment, w: Segment, text: string, le: nat, a: nat, missed: set<int>)
    requires lang.Consuming() && Sound(u, text) && Marked(u, w, le) && le < |text| && IsLineStart(text, le)
    requires DirtyLine(w, text, le) && Consistent(lang, u, text, le, missed)
    requires a < |text| && IsLineStart(text, a) && a !in missed && !DirtyLine(w, text, a)
    ensures LineOk(lang, w, text, a, -1)
  {
    if DirtyLine(u, text, a) { StillDirty(u, w, text, le, a); }
    assert !Pending(u, text, a, le);
    var e :| EntryOk(lang, u, text, a, e, le) && AnalyzedFrom(lang, u, text, a, e);
    forall o | a <= o < LineEnd(text, a) ensures ContextAt(w, o) == ContextAt(u, o) {
      KeptWhenClean(u, w, text, le, a, o);
    }
    SameLine(lang, u, w, text, a, e);
    MarkedEntry(lang, u, w, text, le, a, e);
  }

  lemma MarkedEntry(lang: Language, u: Segment, w: Segment, text: string, le: nat, a: nat, e: Context)
    requires Sound(u, text) && Marked(u, w, le) && le < |text| && IsLineStart(text, le) && DirtyLine(w, text, le)
    requires a < |text| && IsLineStart(text, a) && EntryOk(lang, u, text, a, e, le)
    ensures EntryOk(lang, w, text, a, e, -1)
  {
    if a > 0 && !DirtyLine(w, text, PreviousLine(text, a)) {
      var p := PreviousLine(text, a);
      LinesBefore(text, p, a);
      if DirtyLine(u, text, p) { StillDirty(u, w, text, le, p); }
      LineOf(text, a - 1);
      KeptWhenClean(u, w, text, le, p, a - 1);
    }
  }

  /** Marking the next line makes no beginning a stray one. */
  lemma MarkedStray(u: Segment, w: Segment, text: string, le: nat, q: int)
    requires Sound(u, text) && Sound(w, text) && Marked(u, w, le) && le < |text| && IsLineStart(text, le)
    requires DirtyLine(w, text, le) && Stray(w, text, q, -1)
    ensures Stray(u, text, q, le)
  {
    NonStartNotRoot(w, q);
    if q != le {
      assert q > le ==> NonStart(u.children, q - 0);
      if NonStartOk(u, text, q, le) { MarkedPlace(u, w, text, le, q); }
    }
  }

  lemma MarkedPlace(u: Segment, w: Segment, text: string, le: nat, q: nat)
    requires Sound(u, text) && Marked(u, w, le) && le < |text| && IsLineStart(text, le)
    requires DirtyLine(w, text, le) && NonStartOk(u, text, q, le)
    ensures NonStartOk(w, text, q, -1)
  {
    var a := LineStart(text, q);
    if a != le && DirtyLine(u, text, a) { StillDirty(u, w, text, le, a); }
    if q == a && a > 0 {
      var p := PreviousLine(text, a);
      if p != le && DirtyLine(u, text, p) { StillDirty(u, w, text, le, p); }
    }
  }

  /** With the next line marked, no line needs to be counted as pending. */
  lemma MarkSettles(lang: Language, u: Segment, w: Segment, text: string, le: nat, missed: set<int>)
    requires lang.Consuming() && Sound(u, text) && CleanBefore(u, le) && Consistent(lang, u, text, le, missed)
    requires 0 < le < |text| && IsLineStart(text, le) && Marked(u, w, le)
    ensures Consistent(lang, w, text, -1, missed)
  {
    NextIsDirty(lang, u, w, text, le);
    forall a | 0 <= a < |text| && IsLineStart(text, a) && a !in missed && !Pending(w, text, a, -1) ensures LineOk(lang, w, text, a, -1) {
      MarkedLine(lang, u, w, text, le, a, missed);
    }
    MarkedTerminators(lang, u, w, text, le);
  }

  // ----- the end of the text -----

  /** A tree with everything analyzed and one that differs from it in what is to be
      analyzed, and in that the last line is torn, are consistent alike. */
  lemma ConsistentCopy(lang: Language, u: Segment, v: Segment, text: string, missed: set<int>, torn: int, c: Context)
    requires lang.Consuming() && AllClean(u, text) && Consistent(lang, u, text, -1, missed) && TerminatorsOk(lang, v, text)
    requires forall a: nat, o :: a < |text| && IsLineStart(text, a) && a != torn && a <= o < LineEnd(text, a) ==> ContextAt(v, o) == ContextAt(u, o)
    requires 0 <= torn < |text| ==> EntryIs(lang, u, torn, c) && Torn(lang, v, text, torn, c)
    requires forall o :: 0 <= o < |text| && text[o] == '\n' ==> ContextAt(v, o) == ContextAt(u, o)
    ensures Consistent(lang, v, text, -1, missed)
  {
    hide Torn, LineIs;
    forall a | 0 <= a < |text| && IsLineStart(text, a) && a !in missed && !Pending(v, text, a, -1) ensures LineOk(lang, v, text, a, -1) {
      assert !Pending(u, text, a, -1);
      LineCopy(lang, u, v, text, a, torn, c);
    }
  }

  lemma LineCopy(lang: Language, u: Segment, v: Segment, text: string, a: nat, torn: int, c: Context)
    requires lang.Consuming() && AllClean(u, text) && a < |text| && IsLineStart(text, a) && LineOk(lang, u, text, a, -1)
    requires a != torn ==> forall o :: a <= o < LineEnd(text, a) ==> ContextAt(v, o) == ContextAt(u, o)
    requires a == torn ==> EntryIs(lang, u, torn, c) && Torn(lang, v, text, torn, c)
    requires a > 0 ==> ContextAt(v, a - 1) == ContextAt(u, a - 1)
    ensures LineOk(lang, v, text, a, -1)
  {
    hide Torn, LineIs, LineEnd;
    var e :| EntryOk(lang, u, text, a, e, -1) && AnalyzedFrom(lang, u, text, a, e);
    if a == torn { assert e == c; } else { SameLine(lang, u, v, text, a, e); }
    assert EntryOk(lang, v, text, a, e, -1);
  }

  lemma {:induction false} MarkAfter(cs: seq<Segment>, lo: int, hi: int, p: Option<Context>, o: int, outer: Mark)
    requires ValidForest(cs, lo, hi, p)
    ensures MarkIn(cs, o, outer) == outer || lo <= MarkIn(cs, o, outer).startAt
    decreases cs
  {
    if cs != [] {
      if cs[0].Covers(o) {
        MarkAfter(cs[0].children, cs[0].startAt, cs[0].endAt, cs[0].context, o, Own(cs[0]));
      } else {
        MarkAfter(cs[1..], cs[0].endAt, hi, p, o, outer);
      }
    }
  }

  /** Two characters of the same simple segment have only characters of it between them. */
  lemma {:induction false} SimpleSpan(cs: seq<Segment>, lo: int, hi: int, p: Option<Context>, o: int, k: int, o': int, outer: Mark)
    requires ValidForest(cs, lo, hi, p) && o < k < o' && MarkIn(cs, o, outer) == MarkIn(cs, o', outer)
    requires var c := MarkIn(cs, o, outer).context; c.Some? && c.value.IsSimple()
    requires outer.context.Some? ==> !outer.context.value.IsSimple()
    ensures MarkIn(cs, k, outer) == MarkIn(cs, o, outer)
    decreases cs
  {
    if cs != [] {
      var c := cs[0];
      if c.Covers(o) {
        MarkStarts(c, o);
        if c.Covers(o') {
          if c.IsContainer() {
            SimpleSpan(c.children, c.startAt, c.endAt, c.context, o, k, o', Own(c));
          } else if c.IsSimple() {
            assert MarkAt(c, k) == Own(c);
          }
        } else {
          MarkAfter(cs[1..], c.endAt, hi, p, o', outer);
        }
      } else if o < c.startAt {
        ForestBounds(cs, lo, hi, p);
        MarkUncovered(cs, o, outer);
      } else {
        SimpleSpan(cs[1..], c.endAt, hi, p, o, k, o', outer);
      }
    }
  }

  /** A simple segment holds all characters from its start to any of its characters. */
  lemma {:induction false} SpanBack(cs: seq<Segment>, lo: int, hi: int, p: Option<Context>, k: int, o: int, outer: Mark)
    requires ValidForest(cs, lo, hi, p) && MarkIn(cs, o, outer).startAt <= k <= o
    requires var c := MarkIn(cs, o, outer).context; c.Some? && c.value.IsSimple()
    requires outer.context.Some? ==> !outer.context.value.IsSimple()
    ensures MarkIn(cs, k, outer) == MarkIn(cs, o, outer)
    decreases cs
  {
    if cs != [] {
      var c := cs[0];
      if c.Covers(o) {
        MarkAfter(c.children, c.startAt, c.endAt, c.context, o, Own(c));
        if c.IsContainer() {
          SpanBack(c.children, c.startAt, c.endAt, c.context, k, o, Own(c));
        } else if c.IsSimple() {
          assert MarkAt(c, k) == Own(c);
        }
      } else {
        MarkAfter(cs[1..], c.endAt, hi, p, o, outer);
        SpanBack(cs[1..], c.endAt, hi, p, k, o, outer);
      }
    }
  }

  /** A mark at the end of the text costs contexts only in the last line. */
  lemma EndMarkInLine(lang: Language, u: Segment, w: Segment, text: string, a: nat, o: nat)
    requires Sound(u, text) && TerminatorsOk(lang, u, text) && Marked(u, w, |text|)
    requires a < |text| && a <= o < LineEnd(text, a) < |text|
    ensures ContextAt(w, o) == ContextAt(u, o)
  {
    var k := LineEnd(text, a) - 1;
    if ContextAt(w, o) != ContextAt(u, o) {
      assert MarkAt(u, o) == MarkAt(u, |text| - 1);
      if o < k { SimpleSpan(u.children, 0, u.endAt, u.context, o, k, |text| - 1, Own(u)); }
    }
  }

  /** The text ends in a simple segment. */
  predicate EndsSimple(u: Segment) {
    var c := ContextAt(u, u.endAt - 1);
    u.endAt > 0 && c.Some? && c.value.IsSimple()
  }

  /** In that case the mark at the end of the text is that segment made invalid. */
  lemma {:induction false} EndPlace(s: Segment, path: Path, k: nat, o: nat)
    requires Valid(s) && s.IsContainer() && Solid(s.children) && InvalidCount(s.children) == 0
    requires s.startAt < o == s.endAt && IsPlace(s, path, k, o) && IsPath(s, path) && Innermost(s, path, o)
    requires MarkAt(s, o - 1).context.Some? && MarkAt(s, o - 1).context.value.IsSimple()
    ensures At(s, path).IsSimple() && At(s, path).endAt == o && At(s, path).startAt < o
    decreases path
  {
    hide Solid, InvalidCount, MarkAt, MarkIn, Innermost, IsPlace, Valid, ValidForest;
    EndStep(s, path, k, o);
    var c := s.children[path[0]];
    if c.IsContainer() {
      EndPlace(c, path[1..], k, o);
    } else {
      SimpleEnds(c, path[1..], o);
    }
  }

  lemma SimpleEnds(c: Segment, path: Path, o: nat)
    requires Valid(c) && !c.IsContainer() && IsPath(c, path) && c.startAt < o == c.endAt
    requires MarkAt(c, o - 1).context.Some? && MarkAt(c, o - 1).context.value.IsSimple()
    ensures path == [] && c.IsSimple()
  {
  }

  /** The first step goes to the child that the last character is in. */
  lemma EndStep(s: Segment, path: Path, k: nat, o: nat)
    requires Valid(s) && s.IsContainer() && Solid(s.children) && InvalidCount(s.children) == 0
    requires s.startAt < o == s.endAt && IsPlace(s, path, k, o) && IsPath(s, path) && Innermost(s, path, o)
    requires MarkAt(s, o - 1).context.Some? && MarkAt(s, o - 1).context.value.IsSimple()
    ensures path != [] && path[0] < |s.children| && IsPath(s.children[path[0]], path[1..])
    ensures var c := s.children[path[0]];
      && Valid(c) && Solid(c.children) && InvalidCount(c.children) == 0 && c.startAt < o == c.endAt
      && IsPlace(c, path[1..], k, o) && Innermost(c, path[1..], o) && MarkAt(c, o - 1) == MarkAt(s, o - 1)
  {
    hide Solid, InvalidCount, ValidForest;
    ForestBounds(s.children, s.startAt, s.endAt, s.context);
    if !Covered(s.children, o - 1) { MarkUncovered(s.children, o - 1, Own(s)); }
    var i :| 0 <= i < |s.children| && s.children[i].Covers(o - 1);
    assert s.children[i].Touches(o);
    var j := path[0];
    LastChild(s, j, o);
    assert j == i;
    MarkBelow(s, j, o - 1);
  }

  lemma LastChild(s: Segment, j: nat, o: nat)
    requires Valid(s) && Solid(s.children) && InvalidCount(s.children) == 0 && j < |s.children|
    ensures var c := s.children[j]; Solid(c.children) && InvalidCount(c.children) == 0 && Valid(c) && c.startAt < c.endAt && c.context.Some?
  {
    hide Solid, InvalidCount, ValidForest;
    var c := s.children[j];
    var l, r := s.children[..j], s.children[j + 1..];
    ForestBounds(s.children, s.startAt, s.endAt, s.context);
    assert s.children == l + [c] + r;
    CountAppend(l + [c], r);
    CountAppend(l, [c]);
    CountSingle(c);
    SolidAppend(l + [c], r);
    SolidAppend(l, [c]);
    SolidSingle(c);
  }

  lemma MarkBelow(s: Segment, j: nat, o: int)
    requires Valid(s) && j < |s.children| && s.children[j].Covers(o)
    ensures MarkAt(s, o) == MarkAt(s.children[j], o)
  {
    hide ValidForest;
    var c := s.children[j];
    var l, r := s.children[..j], s.children[j + 1..];
    ForestBounds(s.children, s.startAt, s.endAt, s.context);
    assert s.children == l + [c] + r;
    MarkAppend(l + [c], r, o, Own(s));
    MarkAppend(l, [c], o, MarkIn(r, o, Own(s)));
    MarkSingle(c, o, MarkIn(r, o, Own(s)));
    MarkUncovered(l, o, MarkAt(c, o));
  }

  /** A simple segment that an empty insertion at its end makes invalid. */
  lemma {:induction false} AlongPlace(s: Segment, path: Path, k: nat, o: int)
    requires IsPlace(s, path, k, o) && IsPath(s, path) && k <= |At(s, path).children|
    requires At(s, path).IsSimple() && At(s, path).endAt == o
    ensures var r := InsertAlong(s, path, k, o, 0)[0];
      && |InsertAlong(s, path, k, o, 0)| == 1 && IsPath(r, path)
      && At(r, path).startAt == At(s, path).startAt && At(r, path).endAt == o && At(r, path).children == At(s, path).children
      && At(r, path).IsInvalid()
    decreases path
  {
    if path != [] {
      var i, c := path[0], s.children[path[0]];
      AlongPlace(c, path[1..], k, o);
      assert InsertAlong(s, path, k, o, 0)[0].children[i] == InsertAlong(c, path[1..], k, o, 0)[0];
    }
  }

  lemma {:induction false} AlongParent(s: Segment, path: Path, k: nat, o: int)
    requires path != [] && IsPlace(s, path, k, o) && IsPath(s, path) && k <= |At(s, path).children|
    requires At(s, path).IsSimple() && At(s, path).endAt == o
    ensures var r := InsertAlong(s, path, k, o, 0)[0];
      IsPath(r, path) && IsPath(r, Up(path)) && IsPath(s, Up(path)) && At(r, Up(path)).context == At(s, Up(path)).context
    decreases path
  {
    var i, c := path[0], s.children[path[0]];
    var r := InsertAlong(s, path, k, o, 0)[0];
    AlongPlace(s, path, k, o);
    AlongPlace(c, path[1..], k, o);
    assert r.children[i] == InsertAlong(c, path[1..], k, o, 0)[0];
    UpIsPath(s, path);
    UpIsPath(r, path);
    if path[1..] != [] { AlongParent(c, path[1..], k, o); } else { assert Up(path) == []; }
  }

  /** The parent of a valid segment has the context its own context is a child of. */
  lemma {:induction false} ParentContext(s: Segment, path: Path)
    requires Valid(s) && path != [] && IsPath(s, path) && At(s, path).context.Some?
    ensures IsPath(s, Up(path)) && At(s, path).context.value.Child?
    ensures At(s, Up(path)).context == Some(At(s, path).context.value.parent)
    decreases path
  {
    UpIsPath(s, path);
    ChildBounds(s, path[0]);
    if path[1..] != [] { ParentContext(s.children[path[0]], path[1..]); } else { assert Up(path) == []; }
  }

  /** The mark at the end of the text, when the text ends in a simple segment: it is that
      segment, and its removal gives the characters the context around it. */
  lemma EndTorn(u: Segment, w: Segment, p: Path)
    requires ValidRoot(u) && Solid(u.children) && InvalidCount(u.children) == 0 && EndsSimple(u)
    requires TreeUpdate.InsertedAt(u, w, u.endAt, 0) && ValidRoot(w) && w.endAt == u.endAt
    requires p != [] && IsPath(w, p) && At(w, p).IsInvalid() && InvalidCount(RemoveAt(w, p).children) == 0
    requires forall o :: 0 <= o < u.endAt ==>
      ContextAt(u, o).Some? && (ContextAt(w, o) == ContextAt(u, o) || (ContextAt(w, o) == None && MayLose(u, o, u.endAt, u.endAt)))
    ensures var c, v := ContextAt(u, u.endAt - 1).value, RemoveAt(w, p);
      && c.Child? && ContextAt(v, u.endAt - 1) == Some(c.parent)
      && forall o :: 0 <= o < u.endAt ==> ContextAt(v, o) == ContextAt(u, o) || (ContextAt(u, o) == Some(c) && ContextAt(v, o) == Some(c.parent))
  {
    hide Inserted, InsertAlong, Innermost, HasInvalid, InvalidCount, RemoveAt, Solid, ValidForest, MarkAt;
    var last := u.endAt - 1;
    var path := EndPath(u, w);
    EndRemovedAt(u, w, p, path);
    forall o | 0 <= o < u.endAt
      ensures var c, v := ContextAt(u, last).value, RemoveAt(w, p);
        ContextAt(v, o) == ContextAt(u, o) || (ContextAt(u, o) == Some(c) && ContextAt(v, o) == Some(c.parent))
    {
      LostAtEnd(u, w, p, o);
    }
    LeafMark(w, path, last);
    RemoveContexts(w, p, last);
  }

  lemma LostAtEnd(u: Segment, w: Segment, p: Path, o: int)
    requires ValidRoot(w) && p != [] && IsPath(w, p) && At(w, p).IsInvalid() && InvalidCount(RemoveAt(w, p).children) == 0
    requires 0 <= o < u.endAt && ContextAt(u, o).Some?
    requires ContextAt(w, o) == ContextAt(u, o) || (ContextAt(w, o) == None && MayLose(u, o, u.endAt, u.endAt))
    ensures IsPath(w, Up(p))
    ensures ContextAt(RemoveAt(w, p), o) == ContextAt(u, o) ||
      (ContextAt(u, o) == ContextAt(u, u.endAt - 1) && ContextAt(RemoveAt(w, p), o) == At(w, Up(p)).context)
  {
    var v := RemoveAt(w, p);
    RemoveContexts(w, p, o);
    CountZero(v.children, o, o + 1);
    if ContextAt(v, o) == None { InvalidIsDirty(v.children, o, Own(v), o, o + 1); }
  }

  lemma EndPath(u: Segment, w: Segment) returns (path: Path)
    requires ValidRoot(u) && Solid(u.children) && InvalidCount(u.children) == 0 && EndsSimple(u)
    requires TreeUpdate.InsertedAt(u, w, u.endAt, 0) && ValidRoot(w)
    ensures path != [] && IsPath(w, path) && At(w, path).IsInvalid() && At(w, path).Covers(u.endAt - 1) && At(w, path).children == []
    ensures IsPath(w, Up(path)) && ContextAt(u, u.endAt - 1).value.Child? && At(w, Up(path)).context == Some(ContextAt(u, u.endAt - 1).value.parent)
  {
    hide InsertAlong, Innermost, HasInvalid, InvalidCount, Solid, ValidForest;
    var o: nat := u.endAt;
    if HasInvalid(u.children, o, o) {
      var p := HasInvalidPath(u, u.children, 0, o, o);
      RemoveCount(u, p);
    }
    var k: nat;
    path, k :| IsPlace(u, path, k, o) && IsPath(u, path) && Innermost(u, path, o) && w == Inserted(u, path, k, o, 0);
    PlaceIsPath(u, path, k, o);
    EndPlace(u, path, k, o);
    WithinSegment(u, path);
    LeafMark(u, path, o - 1);
    AlongPlace(u, path, k, o);
    AlongParent(u, path, k, o);
    ParentContext(u, path);
  }

  lemma EndRemovedAt(u: Segment, w: Segment, p: Path, path: Path)
    requires ValidRoot(w) && w.endAt == u.endAt > 0
    requires p != [] && IsPath(w, p) && At(w, p).IsInvalid() && InvalidCount(RemoveAt(w, p).children) == 0
    requires path != [] && IsPath(w, path) && At(w, path).IsInvalid() && At(w, path).Covers(u.endAt - 1) && At(w, path).children == []
    ensures p == path
  {
    hide InvalidCount;
    var last := u.endAt - 1;
    var v := RemoveAt(w, p);
    RemoveContexts(w, p, last);
    LeafMark(w, path, last);
    RemoveShape(w, p);
    CountZero(v.children, last, last + 1);
    if ContextAt(v, last) == None { InvalidIsDirty(v.children, last, Own(v), last, last + 1); }
    WithinSegment(w, p);
    DeepestUnique(w, p, path, last);
  }
}
