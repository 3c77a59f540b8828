/** What the analysis does to the lines of a text: which keep their contexts, which may be
    left although they may not be right, and what becomes of the first line in doubt. */
module Account {
  import opened Wrappers
  import opened Contexts
  import opened Language
  import opened Lines
  import opened SegmentTree
  import opened SegmentRemove
  import opened Labelling
  import opened Dirt
  import opened Consistency
  import opened LineStep
  import opened OpenEnd

  // ----- before and after the analyzed part -----

  /** Before `a` nothing has changed: neither the contexts, nor which lines are missed; and
      the line at `a` has not become a missed one. */
  ghost predicate Behind(t: Segment, u: Segment, text: string, a: int, missed: set<int>, left: set<int>) {
    && (forall o :: 0 <= o < a && o < |text| ==> ContextAt(u, o) == ContextAt(t, o))
    && (forall m :: 0 <= m < a ==> (m in missed <==> m in left))
    && (a in left ==> a in missed)
  }

  /** From `b` on nothing has changed: neither the contexts, nor what is to be analyzed, nor
      which lines are missed. */
  ghost predicate Beyond(t: Segment, u: Segment, text: string, b: int, missed: set<int>, left: set<int>) {
    && (forall o :: 0 <= b <= o < |text| ==> ContextAt(u, o) == ContextAt(t, o))
    && (forall x, y :: b <= x < y ==> (Dirty(u.children, x, y) <==> Dirty(t.children, x, y)))
    && (forall m :: b <= m ==> (m in missed <==> m in left))
  }

  /** Nothing is to be analyzed from the line at `m` on. */
  predicate CleanFrom(t: Segment, text: string, m: int) {
    !Dirty(t.children, m, |text| + 1)
  }

  ghost predicate SameFrom(t: Segment, u: Segment, text: string, m: int) {
    forall o :: 0 <= m <= o < |text| ==> ContextAt(u, o) == ContextAt(t, o)
  }

  lemma BeyondLine(t: Segment, u: Segment, text: string, b: nat, missed: set<int>, left: set<int>)
    requires ValidRoot(t) && ValidRoot(u) && b < |text| && Beyond(t, u, text, b, missed, left)
    ensures DirtyLine(u, text, b) <==> DirtyLine(t, text, b)
    ensures MarkHolds(u, text, b) <==> MarkHolds(t, text, b)
    ensures CleanFrom(u, text, b) <==> CleanFrom(t, text, b)
    ensures SameFrom(t, u, text, b) && (b in missed <==> b in left)
  {
    hide MarkHolds;
    assert ContextAt(u, b) == ContextAt(t, b);
    SameMark(t, u, text, b);
  }

  // ----- blame -----

  /** Why a line may be left although it may not be right: the mark of that line or an earlier
      one was lost, or a segment with a lost beginning was before it to start with. */
  ghost predicate Blamed(t: Segment, text: string, cur: int, swallowed: set<int>, a: int) {
    exists b :: b <= a && (b in swallowed || Stray(t, text, b, cur))
  }

  /** The analysis passed the line at `b`, whose mark did not hold, and left it as it was. */
  predicate LosesMark(t: Segment, u: Segment, text: string, b: int) {
    && 0 < b < |text| && IsLineStart(text, b) && !CleanBefore(t, b) && !MarkHolds(t, text, b)
    && CleanBefore(u, b) && !DirtyLine(u, text, b)
  }

  lemma BlamedOn(t: Segment, u: Segment, text: string, cur: int, before: set<int>, here: set<int>, a: int)
    requires forall q :: Stray(u, text, q, cur) ==> Blamed(t, text, -1, before, q)
    requires Blamed(u, text, cur, here, a)
    ensures Blamed(t, text, -1, before + here, a)
  {
    var b :| b <= a && (b in here || Stray(u, text, b, cur));
    if b !in here {
      var c :| c <= b && (c in before || Stray(t, text, c, -1));
      assert c in before + here || Stray(t, text, c, -1);
    } else {
      assert b in before + here;
    }
  }

  lemma BlamedStill(t: Segment, text: string, before: set<int>, here: set<int>, a: int, a': int)
    requires Blamed(t, text, -1, before, a) && a <= a'
    ensures Blamed(t, text, -1, before + here, a')
  {
    var b :| b <= a && (b in before || Stray(t, text, b, -1));
    assert b in before + here || Stray(t, text, b, -1);
  }

  /** Nothing is to blame in a regular tree as long as no mark is lost. */
  lemma NotBlamed(t: Segment, text: string, a: int)
    requires Regular(t, text)
    ensures !Blamed(t, text, -1, {}, a)
  {
  }

  // ----- the first line in doubt -----

  /** The line at `b` may go wrong: it is missed; or the line before it is to be analyzed, and
      its mark does not hold.  There is no stray beginning before it. */
  ghost predicate Doubt(t: Segment, text: string, missed: set<int>, b: int) {
    && 0 < b < |text| && IsLineStart(text, b)
    && (if DirtyLine(t, text, b) then !MarkHolds(t, text, b) && DirtyLine(t, text, PreviousLine(text, b)) else b in missed)
    && (forall q :: Stray(t, text, q, -1) ==> b <= q)
  }

  /** No mark was lost before the line. */
  predicate First(swallowed: set<int>, b: int) {
    forall d :: d in swallowed ==> b <= d
  }

  ghost predicate KeptLine(t: Segment, u: Segment, text: string, b: nat)
    requires b < |text|
  {
    forall o :: b <= o < LineEnd(text, b) ==> ContextAt(u, o) == ContextAt(t, o)
  }

  /** The line was left as it was, and counts as missed. */
  ghost predicate Kept(t: Segment, u: Segment, text: string, left: set<int>, b: nat)
    requires b < |text|
  {
    && b in left && KeptLine(t, u, text, b) && !DirtyLine(u, text, b)
    && (CleanFrom(t, text, b) ==> CleanFrom(u, text, b) && SameFrom(t, u, text, b))
  }

  /** What became of a line in doubt once everything before it is analyzed.  It was left as it
      was if the toplevel segment spans its start; otherwise it was analyzed, or is to be,
      unless the analysis did not come to it at all and its state is the one before. */
  ghost predicate DoubtEnds(t: Segment, u: Segment, text: string, left: set<int>, b: int) {
    0 < b < |text| &&
    if ContextAt(u, b - 1) == Some(Root) && ContextAt(t, b) == Some(Root) then Kept(t, u, text, left, b)
    else
      || b !in left
      || (Kept(t, u, text, left, b) && !DirtyLine(t, text, PreviousLine(text, b)) && ContextAt(u, b - 1) == ContextAt(t, b - 1))
  }

  /** What became of a line whose mark was lost: it was left as it was, and the toplevel
      segment spans its start, unless an earlier line or beginning is to blame. */
  ghost predicate LossEnds(t: Segment, u: Segment, text: string, left: set<int>, swallowed: set<int>, b: int) {
    0 < b < |text| && b in left && KeptLine(t, u, text, b) && (BothRoot(u, b) || Blamed(t, text, -1, swallowed, b - 1))
  }

  // ----- the account of a call -----

  /** What is known after `update_syntax` when `t` was the tree after `update_tree`, `missed`
      and `left` the lines missed before and after, and `swallowed` those whose mark was lost. */
  ghost predicate Updated(lang: Language, t: Segment, u: Segment, text: string, missed: set<int>, left: set<int>, swallowed: set<int>)
    requires lang.Consuming()
  {
    && Sound(u, text) && Consistent(lang, u, text, -1, left) && EndSettled(lang, u, text, -1, left)
    && (forall a: nat :: a <= |text| && IsLineStart(text, a) && CleanBefore(t, a) ==>
          CleanBefore(u, a) && Behind(t, u, text, a, missed, left))
    && (forall b: nat :: b < |text| && IsLineStart(text, b) && !CleanBefore(u, b) ==> Beyond(t, u, text, b, missed, left))
    && (forall a :: a in left && a !in missed ==> Blamed(t, text, -1, swallowed, a))
    && (forall q :: Stray(u, text, q, -1) ==> Blamed(t, text, -1, swallowed, q))
    && (forall b :: b in swallowed ==> LosesMark(t, u, text, b) && LossEnds(t, u, text, left, swallowed, b))
    && (forall b :: Doubt(t, text, missed, b) && First(swallowed, b) && CleanBefore(u, b) ==> DoubtEnds(t, u, text, left, b))
  }

  /** Nothing done. */
  lemma UpdatedSame(lang: Language, t: Segment, text: string, missed: set<int>)
    requires lang.Consuming() && Sound(t, text) && Consistent(lang, t, text, -1, missed) && EndSettled(lang, t, text, -1, missed)
    ensures Updated(lang, t, t, text, missed, missed, {})
  {
    hide Consistent, EndSettled, Sound, MarkHolds;
    forall q | Stray(t, text, q, -1) ensures Blamed(t, text, -1, {}, q) {
      assert q <= q;
    }
    forall b | Doubt(t, text, missed, b) && CleanBefore(t, b) ensures DoubtEnds(t, t, text, missed, b) {
      CleanLine(t, text, PreviousLine(text, b), b);
    }
  }

  /** In a regular tree, if no mark is lost, nothing becomes missed, and the tree stays
      regular. */
  lemma NothingBlamed(lang: Language, t: Segment, u: Segment, text: string, missed: set<int>, left: set<int>)
    requires lang.Consuming() && Updated(lang, t, u, text, missed, left, {}) && Regular(t, text)
    ensures left <= missed && Regular(u, text)
  {
    hide Consistent, EndSettled, Sound, Stray, Doubt, Behind, Beyond, LossEnds, LosesMark;
    forall a | a in left ensures a in missed {
      NotBlamed(t, text, a);
    }
    forall q ensures !Stray(u, text, q, -1) {
      NotBlamed(t, text, q);
    }
  }

  /** All marks hold of lines that the analysis may come to. */
  ghost predicate Held(t: Segment, text: string) {
    forall b: nat :: b < |text| && IsLineStart(text, b) && !CleanBefore(t, b) ==> MarkHolds(t, text, b)
  }

  /** Then none is lost, and it stays so. */
  lemma HeldOn(lang: Language, t: Segment, u: Segment, text: string, missed: set<int>, left: set<int>, swallowed: set<int>)
    requires lang.Consuming() && Sound(t, text) && Updated(lang, t, u, text, missed, left, swallowed) && Held(t, text)
    ensures swallowed == {} && Held(u, text)
  {
    hide Consistent, EndSettled, Stray, Doubt, Blamed, Beyond, Behind, MarkHolds, CleanBefore, LossEnds, DoubtEnds;
    assert forall b :: b in swallowed ==> LosesMark(t, u, text, b);
    assert forall b :: b !in swallowed;
    forall b: nat | b < |text| && IsLineStart(text, b) && !CleanBefore(u, b) ensures MarkHolds(u, text, b) {
      BeyondLine(t, u, text, b, missed, left);
    }
  }

  // ----- one call after the other -----

  /** A line that is done, with everything before it: so is everything up to its end, or
      there is nothing left to do at all. */
  lemma DoneTo(u: Segment, text: string, b: nat)
    requires Sound(u, text) && b < |text| && IsLineStart(text, b) && CleanBefore(u, b) && !DirtyLine(u, text, b)
    ensures InvalidCount(u.children) == 0 || (IsLineStart(text, LineEnd(text, b)) && CleanBefore(u, LineEnd(text, b)))
  {
    var y := Top(text, LineEnd(text, b));
    if Dirty(u.children, 0, y) { DirtySplit(u.children, 0, b, y); }
    if y == |text| + 1 { CleanCount(u.children, 0, u.endAt, u.context); }
  }

  /** Such a line stays as it is. */
  lemma DoneStays(lang: Language, u: Segment, v: Segment, text: string, middle: set<int>, left: set<int>, here: set<int>, b: nat)
    requires lang.Consuming() && Updated(lang, u, v, text, middle, left, here) && Sound(u, text)
    requires InvalidCount(u.children) == 0 ==> v == u && left == middle
    requires b < |text| && IsLineStart(text, b) && CleanBefore(u, b) && !DirtyLine(u, text, b)
    ensures CleanBefore(v, b) && !DirtyLine(v, text, b) && (b in middle <==> b in left)
    ensures forall o :: 0 <= o < LineEnd(text, b) ==> ContextAt(v, o) == ContextAt(u, o)
  {
    hide Consistent, EndSettled, Beyond, Blamed, Stray, LosesMark, LossEnds, Doubt, DoubtEnds, Dirty;
    DoneTo(u, text, b);
    if InvalidCount(u.children) > 0 {
      var e := LineEnd(text, b);
      assert CleanBefore(v, e) && Behind(u, v, text, e, middle, left);
      CleanLine(v, text, b, e);
    }
  }

  /** A line in doubt that the analysis has not come to is in doubt still. */
  lemma DoubtOn(lang: Language, t: Segment, u: Segment, text: string, missed: set<int>, middle: set<int>, before: set<int>, b: nat)
    requires lang.Consuming() && Updated(lang, t, u, text, missed, middle, before) && Sound(t, text)
    requires Doubt(t, text, missed, b) && First(before, b) && !CleanBefore(u, b)
    ensures Doubt(u, text, middle, b)
  {
    hide Consistent, EndSettled, Behind, Beyond, Stray, MarkHolds, DirtyLine, LineEnd, LossEnds, LosesMark, DoubtEnds;
    BeyondLine(t, u, text, b, missed, middle);
    forall q | Stray(u, text, q, -1) ensures b <= q {
      var c :| c <= q && (c in before || Stray(t, text, c, -1));
    }
    if DirtyLine(t, text, PreviousLine(text, b)) { PreviousOn(lang, t, u, text, missed, middle, before, b); }
  }

  lemma PreviousOn(lang: Language, t: Segment, u: Segment, text: string, missed: set<int>, middle: set<int>, before: set<int>, b: nat)
    requires lang.Consuming() && Updated(lang, t, u, text, missed, middle, before) && Sound(t, text)
    requires 0 < b < |text| && IsLineStart(text, b) && !CleanBefore(u, b)
    ensures DirtyLine(t, text, PreviousLine(text, b)) ==> DirtyLine(u, text, PreviousLine(text, b))
    ensures DirtyLine(u, text, PreviousLine(text, b)) || (!DirtyLine(t, text, PreviousLine(text, b)) && ContextAt(u, b - 1) == ContextAt(t, b - 1))
  {
    hide Consistent, EndSettled, Behind, Beyond, Stray, MarkHolds, Blamed, Doubt, DoubtEnds, LossEnds, LosesMark;
    var p := PreviousLine(text, b);
    LinesMeetAt(text, p, b);
    LineOf(text, b - 1);
    assert LineEnd(text, p) == b && Top(text, b) == b;
    if CleanBefore(u, p) {
      DirtySplit(u.children, 0, p, b);
    } else {
      BeyondLine(t, u, text, p, missed, middle);
    }
  }

  /** The line in doubt after two calls. */
  lemma DoubtTwice(lang: Language, t: Segment, u: Segment, v: Segment, text: string, missed: set<int>, middle: set<int>, left: set<int>, before: set<int>, here: set<int>, b: nat)
    requires lang.Consuming() && Sound(t, text) && Updated(lang, t, u, text, missed, middle, before) && Updated(lang, u, v, text, middle, left, here)
    requires InvalidCount(u.children) == 0 ==> v == u && left == middle
    requires Doubt(t, text, missed, b) && First(before + here, b) && CleanBefore(v, b)
    ensures DoubtEnds(t, v, text, left, b)
  {
    hide Consistent, EndSettled, Stray, Blamed, MarkHolds, Dirty, LossEnds, LosesMark, Beyond, Kept;
    assert First(before, b) && First(here, b);
    if CleanBefore(u, b) {
      DoubtDone(lang, t, u, v, text, missed, middle, left, here, b);
    } else {
      DoubtOn(lang, t, u, text, missed, middle, before, b);
      PreviousOn(lang, t, u, text, missed, middle, before, b);
      BeyondLine(t, u, text, b, missed, middle);
      assert DoubtEnds(u, v, text, left, b);
      KeptLater(t, u, v, text, left, b);
    }
  }

  /** A line in doubt that was decided in the first call. */
  lemma DoubtDone(lang: Language, t: Segment, u: Segment, v: Segment, text: string, missed: set<int>, middle: set<int>, left: set<int>, here: set<int>, b: nat)
    requires lang.Consuming() && Sound(u, text) && Updated(lang, u, v, text, middle, left, here)
    requires InvalidCount(u.children) == 0 ==> v == u && left == middle
    requires DoubtEnds(t, u, text, middle, b) && IsLineStart(text, b) && CleanBefore(u, b)
    ensures DoubtEnds(t, v, text, left, b)
  {
    hide Consistent, EndSettled, Stray, Blamed, MarkHolds, Dirty, LossEnds, LosesMark, Doubt;
    assert Behind(u, v, text, b, middle, left);
    if b in middle {
      DoneStays(lang, u, v, text, middle, left, here, b);
      if CleanFrom(t, text, b) { NothingAfter(u, text, b); }
    }
  }

  lemma KeptLater(t: Segment, u: Segment, v: Segment, text: string, left: set<int>, b: nat)
    requires b < |text| && SameFrom(t, u, text, b) && (CleanFrom(u, text, b) <==> CleanFrom(t, text, b))
    ensures Kept(u, v, text, left, b) ==> Kept(t, v, text, left, b)
  {
    hide Dirty;
  }

  lemma NothingAfter(u: Segment, text: string, b: nat)
    requires Sound(u, text) && b <= |text| && CleanBefore(u, b) && CleanFrom(u, text, b)
    ensures InvalidCount(u.children) == 0
  {
    if Dirty(u.children, 0, |text| + 1) { DirtySplit(u.children, 0, b, |text| + 1); }
    CleanCount(u.children, 0, u.endAt, u.context);
  }

  /** Two calls, one after the other, have one account. */
  lemma UpdatedTwice(lang: Language, t: Segment, u: Segment, v: Segment, text: string, missed: set<int>, middle: set<int>, left: set<int>, before: set<int>, here: set<int>)
    requires lang.Consuming() && Sound(t, text) && Updated(lang, t, u, text, missed, middle, before) && Updated(lang, u, v, text, middle, left, here)
    requires InvalidCount(u.children) == 0 && text != "" ==> v == u && left == middle
    ensures Updated(lang, t, v, text, missed, left, before + here)
  {
    hide Consistent, EndSettled, Stray, Blamed, MarkHolds, Dirty, LosesMark, LossEnds, Doubt, DoubtEnds, Sound, CleanBefore, First;
    forall a: nat | a <= |text| && IsLineStart(text, a) && CleanBefore(t, a) ensures CleanBefore(v, a) && Behind(t, v, text, a, missed, left) {
      assert Behind(t, u, text, a, missed, middle) && Behind(u, v, text, a, middle, left);
    }
    forall b: nat | b < |text| && IsLineStart(text, b) && !CleanBefore(v, b) ensures Beyond(t, v, text, b, missed, left) {
      assert Beyond(u, v, text, b, middle, left) && Beyond(t, u, text, b, missed, middle);
    }
    BlamesTwice(lang, t, u, v, text, missed, middle, left, before, here);
    forall b | b in before + here ensures LosesMark(t, v, text, b) && LossEnds(t, v, text, left, before + here, b) {
      LossTwice(lang, t, u, v, text, missed, middle, left, before, here, b);
    }
    forall b | Doubt(t, text, missed, b) && First(before + here, b) && CleanBefore(v, b) ensures DoubtEnds(t, v, text, left, b) {
      DoubtInText(t, text, missed, b);
      DoubtTwice(lang, t, u, v, text, missed, middle, left, before, here, b);
    }
  }

  lemma DoubtInText(t: Segment, text: string, missed: set<int>, b: int)
    requires Doubt(t, text, missed, b)
    ensures 0 < b < |text| && IsLineStart(text, b)
  {
  }

  lemma BlamesTwice(lang: Language, t: Segment, u: Segment, v: Segment, text: string, missed: set<int>, middle: set<int>, left: set<int>, before: set<int>, here: set<int>)
    requires lang.Consuming() && Updated(lang, t, u, text, missed, middle, before) && Updated(lang, u, v, text, middle, left, here)
    ensures forall a :: a in left && a !in missed ==> Blamed(t, text, -1, before + here, a)
    ensures forall q :: Stray(v, text, q, -1) ==> Blamed(t, text, -1, before + here, q)
  {
    hide Consistent, EndSettled, Stray, Blamed, Behind, Beyond, LosesMark, LossEnds, Doubt, DoubtEnds, Sound;
    forall a | a in left && a !in missed ensures Blamed(t, text, -1, before + here, a) {
      if a in middle { BlamedStill(t, text, before, here, a, a); } else { BlamedOn(t, u, text, -1, before, here, a); }
    }
    forall q | Stray(v, text, q, -1) ensures Blamed(t, text, -1, before + here, q) {
      BlamedOn(t, u, text, -1, before, here, q);
    }
  }

  lemma LossTwice(lang: Language, t: Segment, u: Segment, v: Segment, text: string, missed: set<int>, middle: set<int>, left: set<int>, before: set<int>, here: set<int>, b: int)
    requires lang.Consuming() && Sound(t, text) && Updated(lang, t, u, text, missed, middle, before) && Updated(lang, u, v, text, middle, left, here)
    requires InvalidCount(u.children) == 0 && text != "" ==> v == u && left == middle
    requires b in before + here
    ensures LosesMark(t, v, text, b) && LossEnds(t, v, text, left, before + here, b)
  {
    hide Consistent, EndSettled, Stray, Blamed, MarkHolds, Dirty, Doubt, DoubtEnds, Behind, Beyond;
    if b in before {
      assert LosesMark(t, u, text, b) && LossEnds(t, u, text, middle, before, b);
      DoneStays(lang, u, v, text, middle, left, here, b);
      if Blamed(t, text, -1, before, b - 1) { BlamedStill(t, text, before, here, b - 1, b - 1); }
    } else {
      assert LosesMark(u, v, text, b) && LossEnds(u, v, text, left, here, b);
      BeyondLine(t, u, text, b, missed, middle);
      if Blamed(u, text, -1, here, b - 1) { BlamedOn(t, u, text, -1, before, here, b - 1); }
    }
  }
}
