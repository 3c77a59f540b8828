/** The main loop of `update_syntax` on the tree. */
module SyntaxUpdate {
  import opened Wrappers
  import opened Contexts
  import opened Language
  import opened LineAnalysis
  import opened Lines
  import opened SegmentTree
  import opened SegmentRemove
  import opened Labelling
  import opened Dirt
  import opened Spine
  import opened Consistency
  import opened LineStep
  import opened SegmentMerge
  import opened SyntaxRound
  import opened Interruption
  import opened OpenEnd
  import opened Account
  import opened SyntaxEnd
  import TreeUpdate

  // ----- one round -----

  /** If the state at the end of the line is a segment whose own beginning was erased, that
      is a stray one before the line. */
  lemma StateStray(lang: Language, t: Segment, u: Segment, text: string, ls: nat, c: Context, state: Path) returns (q: int)
    requires lang.Consuming() && Sound(t, text) && ls < |text| && IsLineStart(text, ls) && CleanBefore(t, ls)
    requires lang.Has(c) && c.IsContainer() && Stepped(lang, t, u, text, ls, c)
    requires state != [] && Open(u, state, LineEnd(text, ls), LineEnd(text, ls)) && IsPath(u, state)
    requires At(u, state).IsContainer() && !At(u, state).isStart
    ensures q < ls && Stray(t, text, q, ls)
  {
    var le := LineEnd(text, ls);
    q := At(u, state).startAt;
    PathNonStart(u, state);
    PathSolid(u, state);
    OpenEnds(u, state, le, le);
    NonStartNotRoot(u, q);
    BehindIsStray(t, text, ls, q);
  }

  /** The mark that the round takes away. */
  function LostHere(t: Segment, text: string, le: nat, next: bool): set<int> {
    if next || MarkHolds(t, text, le) then {} else {le}
  }

  /** What a round decides: exactly which lines are missed now.  The next line is to be
      analyzed when it has something to analyze, or when the states disagree; if it is left as
      it is, the states agree, unless there was a stray beginning before.  It keeps its mark
      exactly if that holds.  And which beginnings are stray ones now. */
  ghost predicate Decided(t: Segment, v: Segment, text: string, ls: nat, next: bool, missed: set<int>, left: set<int>)
    requires ls < |text|
  {
    var le := LineEnd(text, ls);
    && left == After(t, v, text, ls, next, missed)
    && (le < |text| && next && !DirtyLine(v, text, le) ==> !BothRoot(v, le))
    && (le < |text| && !next ==> !DirtyLine(v, text, le) && (BothRoot(v, le) || exists q :: q < ls && Stray(t, text, q, ls)))
    && (le < |text| ==> (DirtyLine(v, text, le) <==> DirtyLine(t, text, le) && MarkHolds(t, text, le)))
    && (forall x, y :: le < x < y ==> (Dirty(v.children, x, y) <==> Dirty(t.children, x, y)))
    && (forall q :: Stray(v, text, q, if next then le else -1) ==> Blamed(t, text, ls, LostHere(t, text, le, next), q))
  }

  /** The line that was just analyzed, and the others, which keep their contexts. */
  ghost predicate Done(lang: Language, t: Segment, v: Segment, text: string, ls: nat, c: Context)
    requires lang.Consuming() && ls < |text|
  {
    && EntryIs(lang, t, ls, c) && EntryIs(lang, v, ls, c) && LineIs(lang, v, text, ls, c)
    && (forall o :: o < ls || LineEnd(text, ls) <= o ==> ContextAt(v, o) == ContextAt(t, o))
  }

  lemma RoundDone(lang: Language, t: Segment, u: Segment, v: Segment, text: string, ls: nat, c: Context)
    requires lang.Consuming() && ls < |text| && EntryIs(lang, t, ls, c) && Stepped(lang, t, u, text, ls, c)
    requires forall o :: ContextAt(v, o) == ContextAt(u, o)
    ensures Done(lang, t, v, text, ls, c)
  {
  }

  /** The analyzed tree `v` is `u`, perhaps with two segments merged. */
  lemma SameMissed(lang: Language, u: Segment, v: Segment, text: string, cur: int, missed: set<int>)
    requires lang.Consuming() && MergedDirt(u.children, v.children) && forall o :: ContextAt(v, o) == ContextAt(u, o)
    ensures Consistent(lang, u, text, cur, missed) ==> Consistent(lang, v, text, cur, missed)
    ensures EndSettled(lang, u, text, cur, missed) ==> EndSettled(lang, v, text, cur, missed)
  {
    hide AnalyzedFrom, OpenLabel;
    if Consistent(lang, u, text, cur, missed) {
      forall a | 0 <= a < |text| && IsLineStart(text, a) && a !in missed && !Pending(v, text, a, cur) ensures LineOk(lang, v, text, a, cur) {
        assert !Pending(u, text, a, cur);
        var e :| EntryOk(lang, u, text, a, e, cur) && AnalyzedFrom(lang, u, text, a, e);
        SameLine(lang, u, v, text, a, e);
        assert EntryOk(lang, v, text, a, e, cur);
      }
    }
  }

  lemma SameStray(u: Segment, v: Segment, text: string, q: int, cur: int)
    requires MergedDirt(u.children, v.children) && Stray(v, text, q, cur)
    ensures Stray(u, text, q, cur)
  {
  }

  lemma RoundKeeps(lang: Language, t: Segment, u: Segment, v: Segment, text: string, ls: nat, c: Context, next: bool, missed: set<int>)
    requires lang.Consuming() && Sound(t, text) && Ready(lang, t, text, ls, c, missed) && Stepped(lang, t, u, text, ls, c)
    requires MergedDirt(u.children, v.children) && forall o :: ContextAt(v, o) == ContextAt(u, o)
    requires NoMarkLost(t, u, text, LineEnd(text, ls)) <==> MarkHolds(t, text, LineEnd(text, ls))
    ensures var left, le := After(t, v, text, ls, next, missed), LineEnd(text, ls);
      && Consistent(lang, v, text, if next then le else -1, left)
      && (le < |text| && EndSettled(lang, t, text, ls, missed) ==> EndSettled(lang, v, text, if next then le else -1, left))
  {
    hide Consistent, EndSettled, MarkHolds, NoMarkLost;
    var le, left := LineEnd(text, ls), After(t, u, text, ls, next, missed);
    if next { StepKeeps(lang, t, u, text, ls, c, missed); } else { StepStops(lang, t, u, text, ls, c, missed); }
    if le < |text| && EndSettled(lang, t, text, ls, missed) { SettledAfterStep(lang, t, u, text, ls, c, missed); }
    SameMissed(lang, u, v, text, if next then le else -1, left);
  }

  lemma RoundDecides(lang: Language, t: Segment, u: Segment, v: Segment, text: string, ls: nat, c: Context, state: Path, next: bool, settled: bool, missed: set<int>)
    requires lang.Consuming() && Sound(t, text) && ls < |text| && IsLineStart(text, ls) && CleanBefore(t, ls)
    requires EntryIs(lang, t, ls, c) && Stepped(lang, t, u, text, ls, c)
    requires MergedDirt(u.children, v.children) && forall o :: ContextAt(v, o) == ContextAt(u, o)
    requires NoMarkLost(t, u, text, LineEnd(text, ls)) <==> MarkHolds(t, text, LineEnd(text, ls))
    requires next && LineEnd(text, ls) < |text| ==> DirtyLine(u, text, LineEnd(text, ls)) || !BothRoot(u, LineEnd(text, ls))
    requires !next && LineEnd(text, ls) < |text| ==> !DirtyLine(u, text, LineEnd(text, ls)) && (settled ==> BothRoot(u, LineEnd(text, ls)))
    requires !next && !settled ==> state != [] && Open(u, state, LineEnd(text, ls), LineEnd(text, ls)) && IsPath(u, state)
                                   && At(u, state).IsContainer() && !At(u, state).isStart
    ensures Decided(t, v, text, ls, next, missed, After(t, v, text, ls, next, missed))
  {
    hide LineContexts, LineExit, Stray, Blamed, Open, CleanBefore;
    var le := LineEnd(text, ls);
    if !next && !settled {
      var q := StateStray(lang, t, u, text, ls, c, state);
    }
    forall q | Stray(v, text, q, if next then le else -1) ensures Blamed(t, text, ls, LostHere(t, text, le, next), q) {
      SameStray(u, v, text, q, if next then le else -1);
      RoundStray(lang, t, u, text, ls, c, state, next, settled, q);
    }
  }

  lemma RoundStray(lang: Language, t: Segment, u: Segment, text: string, ls: nat, c: Context, state: Path, next: bool, settled: bool, q: int)
    requires lang.Consuming() && Sound(t, text) && ls < |text| && IsLineStart(text, ls) && CleanBefore(t, ls)
    requires EntryIs(lang, t, ls, c) && Stepped(lang, t, u, text, ls, c)
    requires NoMarkLost(t, u, text, LineEnd(text, ls)) <==> MarkHolds(t, text, LineEnd(text, ls))
    requires !next && LineEnd(text, ls) < |text| ==> (settled ==> BothRoot(u, LineEnd(text, ls)))
    requires !next && !settled ==> state != [] && Open(u, state, LineEnd(text, ls), LineEnd(text, ls)) && IsPath(u, state)
                                   && At(u, state).IsContainer() && !At(u, state).isStart
    requires Stray(u, text, q, if next then LineEnd(text, ls) else -1)
    ensures Blamed(t, text, ls, LostHere(t, text, LineEnd(text, ls), next), q)
  {
    hide LineContexts, LineExit, Stray, Open, CleanBefore, MarkHolds, NoMarkLost;
    var le := LineEnd(text, ls);
    if next {
      StrayOn(lang, t, u, text, ls, c, q);
      assert q <= q;
    } else {
      StrayStopped(lang, t, u, text, ls, c, q);
      if !Stray(t, text, q, ls) && NoMarkLost(t, u, text, le) {
        var b := StateStray(lang, t, u, text, ls, c, state);
        assert b <= q;
      } else {
        assert le in {le} && q <= q;
      }
    }
  }

  lemma StateTerminators(lang: Language, v: Segment, text: string, cur: int, left: set<int>)
    requires lang.Consuming() && Consistent(lang, v, text, cur, left)
    ensures TerminatorsOk(lang, v, text)
  {
  }

  /** One round: the line is erased and analyzed, and its end is compared with what
      follows.  `next`: the next line is to be analyzed; `need`: it must be marked if
      the analysis stops here; `invalid`: where the first invalid segment begins. */
  method Round(lang: Language, t: Segment, text: string, ls: nat, hint: Path, childHint: nat, ghost missed: set<int>)
    returns (v: Segment, next: bool, need: bool, invalid: Option<nat>, ghost c: Context, ghost left: set<int>)
    requires lang.Consuming() && Sound(t, text) && Consistent(lang, t, text, ls, missed)
    requires ls < |text| && IsLineStart(text, ls) && CleanBefore(t, ls)
    ensures Sound(v, text) && CleanBefore(v, LineEnd(text, ls)) && Done(lang, t, v, text, ls, c)
    ensures Consistent(lang, v, text, if next then LineEnd(text, ls) else -1, left)
    ensures LineEnd(text, ls) < |text| && EndSettled(lang, t, text, ls, missed) ==>
      EndSettled(lang, v, text, if next then LineEnd(text, ls) else -1, left)
    ensures Decided(t, v, text, ls, next, missed, left)
    ensures need ==> next
    ensures next && !need && LineEnd(text, ls) < |text| ==> DirtyLine(v, text, LineEnd(text, ls))
    ensures invalid.None? ==> InvalidCount(v.children) == 0
    ensures invalid.Some? ==>
      LineEnd(text, ls) <= invalid.value <= |text| && CleanBefore(v, invalid.value) && Dirty(v.children, invalid.value, invalid.value + 1)
    ensures LineEnd(text, ls) == |text| ==>
      invalid.None? && next == need && (need <==> LineExit(lang, c, ls == 0, text[ls..]) != Root)
  {
    hide MarkHolds, NoMarkLost, Stray, Blamed, Decided, LineContexts, LineExit, Consistent, EndSettled, Open;
    var le := LineEnd(text, ls);
    var u, state;
    StateTerminators(lang, t, text, ls, missed);
    u, state, c := AnalyzeLineAt(lang, t, text, ls, hint, childHint);
    StepClean(lang, t, u, text, ls, c);
    var first := FirstInvalid(u);
    if le == |text| { NothingLeft(u, text, ls); }
    invalid := FirstOffset(u, text, le, first);
    next := NextLineInvalid(u, text, le, first);
    need, v := false, u;
    ghost var x := LineExit(lang, c, ls == 0, text[ls..le]);
    assert text[ls..] == text[ls..|text|];
    OpenIsPath(u, state, le, le);
    if !next {
      v, need := Compare(u, text, le, state, Some(state), x);
      next := need;
    }
    if le < |text| { ExitIsRoot(lang, t, u, text, ls, c); }
    left := After(t, v, text, ls, next, missed);
    RoundKeeps(lang, t, u, v, text, ls, c, next, missed);
    RoundDecides(lang, t, u, v, text, ls, c, state, next, x == Root, missed);
    RoundDone(lang, t, u, v, text, ls, c);
    if invalid.None? { NoneInvalid(v); }
  }

  method FirstOffset(u: Segment, text: string, le: nat, first: Option<Path>) returns (invalid: Option<nat>)
    requires Sound(u, text) && le <= |text| && CleanBefore(u, le) && IsFirstInvalid(u, first)
    ensures invalid.None? ==> forall x, y :: !Dirty(u.children, x, y)
    ensures invalid.Some? ==>
      le <= invalid.value <= |text| && !Dirty(u.children, 0, invalid.value) && Dirty(u.children, invalid.value, invalid.value + 1)
    ensures InvalidCount(u.children) == 0 ==> invalid.None?
    ensures invalid.None? <==> first.None?
  {
    if first.None? {
      return None;
    }
    var p := first.value;
    if At(u, p).startAt < le { PathDirty(u, p, 0, le); }
    PathDirty(u, p, At(u, p).startAt, At(u, p).startAt + 1);
    if InvalidCount(u.children) == 0 { CountZero(u.children, At(u, p).startAt, At(u, p).startAt + 1); }
    invalid := Some(At(u, p).startAt);
  }

  // ----- stopping before the end of the text -----

  /** A mark at the start of the line at `le` changes nothing for later lines. */
  lemma MarkedBeyond(lang: Language, v: Segment, u: Segment, text: string, le: nat, b: nat, left: set<int>)
    requires Sound(v, text) && TerminatorsOk(lang, v, text) && Marked(v, u, le) && TreeUpdate.InsertedAt(v, u, le, 0)
    requires 0 < le < b < |text| && IsLineStart(text, le) && IsLineStart(text, b)
    ensures Beyond(v, u, text, b, left, left)
  {
    hide Dirty, Marked, TreeUpdate.InsertedAt, TerminatorsOk, Sound;
    forall o | b <= o < |text| ensures ContextAt(u, o) == ContextAt(v, o) {
      MarkKeeps(lang, v, u, text, le, b, o);
    }
    forall x, y | b <= x < y ensures Dirty(u.children, x, y) <==> Dirty(v.children, x, y) {
      MarkAdds(lang, v, u, text, le, b, x, y);
      if Dirty(v.children, x, y) { MarkLeaves(v, u, le, x, y); }
    }
  }

  lemma MarkLeaves(v: Segment, u: Segment, le: nat, x: int, y: int)
    requires Marked(v, u, le) && le < x < y && Dirty(v.children, x, y)
    ensures Dirty(u.children, x, y)
  {
    assert Dirty(u.children, x + 0, y + 0);
  }

  /** A character that had a simple context has lost it. */
  predicate LostSimple(t: Segment, u: Segment, o: int) {
    var c := ContextAt(t, o);
    ContextAt(u, o) == None && c.Some? && c.value.IsSimple()
  }

  lemma MarkCosts(v: Segment, u: Segment, text: string, le: nat)
    requires Sound(v, text) && Marked(v, u, le)
    ensures forall o :: 0 <= o < |text| ==> ContextAt(u, o) == ContextAt(v, o) || LostSimple(v, u, o)
  {
  }

  /** Before the end of the text the next line is marked when that is needed. */
  method MarkNext(lang: Language, v: Segment, text: string, le: nat, ghost next: bool, need: bool, hint: nat, ghost left: set<int>)
    returns (u: Segment)
    requires lang.Consuming() && Sound(v, text) && Consistent(lang, v, text, if next then le else -1, left) && CleanBefore(v, le)
    requires EndSettled(lang, v, text, if next then le else -1, left)
    requires 0 < le < |text| && IsLineStart(text, le)
    requires (need ==> next) && (next && !need ==> DirtyLine(v, text, le))
    ensures Sound(u, text) && Consistent(lang, u, text, -1, left) && EndSettled(lang, u, text, -1, left) && (!need ==> u == v)
    ensures CleanBefore(u, le) && (next ==> DirtyLine(u, text, le))
    ensures forall q :: Stray(u, text, q, -1) ==> Stray(v, text, q, if next then le else -1)
    ensures forall o :: 0 <= o < le ==> ContextAt(u, o) == ContextAt(v, o)
    ensures forall o :: le <= o < |text| ==> ContextAt(u, o) == ContextAt(v, o) || LostSimple(v, u, o)
    ensures forall b: nat :: le < b < |text| && IsLineStart(text, b) ==> Beyond(v, u, text, b, left, left)
  {
    hide Stray, Beyond, Consistent, EndSettled, Marked, TreeUpdate.InsertedAt, Dirty;
    u := v;
    NoChange(v, text, left);
    if need {
      u := MarkOffset(v, le, hint);
      MarkCosts(v, u, text, le);
      StateTerminators(lang, v, text, le, left);
      MarkedSound(v, u, text, le);
      SettledAfterMark(lang, v, u, text, le, left);
      MarkAdds(lang, v, u, text, le, 0, 0, le);
      NextIsDirty(lang, v, u, text, le);
      MarkSettles(lang, v, u, text, le, left);
      MarkedFar(lang, v, u, text, le, left);
    } else if next {
      DirtyNextSettles(lang, v, text, le, left);
      DirtyNextEnd(lang, v, text, le, left);
      forall q | Stray(v, text, q, -1) ensures Stray(v, text, q, le) {
        DirtyNextStray(v, text, le, q);
      }
    }
  }

  lemma NoChange(v: Segment, text: string, left: set<int>)
    ensures forall b: nat :: Beyond(v, v, text, b, left, left)
  {
  }

  lemma DirtyNextEnd(lang: Language, v: Segment, text: string, le: nat, left: set<int>)
    requires EndSettled(lang, v, text, le, left) && le < |text| && DirtyLine(v, text, le)
    ensures EndSettled(lang, v, text, -1, left)
  {
  }

  lemma MarkedFar(lang: Language, v: Segment, u: Segment, text: string, le: nat, left: set<int>)
    requires Sound(v, text) && TerminatorsOk(lang, v, text) && Sound(u, text) && Marked(v, u, le) && TreeUpdate.InsertedAt(v, u, le, 0)
    requires 0 < le < |text| && IsLineStart(text, le) && DirtyLine(u, text, le)
    ensures forall q :: Stray(u, text, q, -1) ==> Stray(v, text, q, le)
    ensures forall o :: 0 <= o < le ==> ContextAt(u, o) == ContextAt(v, o)
    ensures forall b: nat :: le < b < |text| && IsLineStart(text, b) ==> Beyond(v, u, text, b, left, left)
  {
    hide Stray, Beyond, Marked, TreeUpdate.InsertedAt, Dirty, DirtyLine, Sound, TerminatorsOk, ContextAt;
    forall q | Stray(u, text, q, -1) ensures Stray(v, text, q, le) {
      MarkedStray(v, u, text, le, q);
    }
    SoundRoot(v, text);
    forall o | 0 <= o < le ensures ContextAt(u, o) == ContextAt(v, o) {
      MarkKeeps(lang, v, u, text, le, 0, o);
    }
    forall b: nat | le < b < |text| && IsLineStart(text, b) ensures Beyond(v, u, text, b, left, left) {
      MarkedBeyond(lang, v, u, text, le, b, left);
    }
  }

}
