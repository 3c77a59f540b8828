/** The main loop of `update_syntax`, and its account of the lines that may be wrong. */
module SyntaxLoop {
  import opened Wrappers
  import opened Contexts
  import opened Language
  import opened LineAnalysis
  import opened Lines
  import opened SegmentTree
  import opened SegmentRemove
  import opened Labelling
  import opened Dirt
  import opened Consistency
  import opened LineStep
  import opened OpenEnd
  import opened Account
  import opened SyntaxEnd
  import opened SyntaxUpdate

  /** Nothing before the line at `from` is to be analyzed, and `from` is the last line of which
      that is so. */
  ghost predicate IsFirstLine(t: Segment, text: string, from: nat) {
    && from <= |text| && IsLineStart(text, from) && CleanBefore(t, from)
    && (forall a: nat :: a <= |text| && IsLineStart(text, a) && CleanBefore(t, a) ==> a <= from)
  }

  // ----- between two rounds -----

  /** The account since the tree was `t`: the line at `start` was the first to be analyzed,
      everything before `at` is done, and lines after `top` are as they were. */
  ghost predicate Ledger(t: Segment, u: Segment, text: string, start: nat, at: nat, top: nat, missed: set<int>, left: set<int>, swallowed: set<int>) {
    && Behind(t, u, text, start, missed, left)
    && (forall b: nat :: top < b < |text| && IsLineStart(text, b) ==> Beyond(t, u, text, b, missed, left))
    && (forall a :: a in left && a !in missed ==> start < a <= top && Blamed(t, text, -1, swallowed, a))
    && (forall b :: b in swallowed ==> start < b <= at && b < |text| && IsLineStart(text, b) && !MarkHolds(t, text, b) && LossEnds(t, u, text, left, swallowed, b))
    && (forall b :: Doubt(t, text, missed, b) && First(swallowed, b) && b <= at ==> DoubtEnds(t, u, text, left, b))
  }

  ghost predicate StraysBlamed(t: Segment, u: Segment, text: string, cur: int, swallowed: set<int>) {
    forall q :: Stray(u, text, q, cur) ==> Blamed(t, text, -1, swallowed, q)
  }

  /** A line in doubt that was left as it was: there was more to analyze after it. */
  ghost predicate KeptOpen(t: Segment, text: string, at: int, missed: set<int>, left: set<int>, swallowed: set<int>) {
    forall b :: Doubt(t, text, missed, b) && First(swallowed, b) && b <= at && b in left ==> b < at && !CleanFrom(t, text, b)
  }

  /** Between two rounds: everything before the line at `ls` is analyzed. */
  ghost predicate Underway(lang: Language, t: Segment, u: Segment, text: string, start: nat, ls: nat, missed: set<int>, left: set<int>, swallowed: set<int>)
    requires lang.Consuming()
  {
    && start <= ls <= |text| && IsLineStart(text, ls)
    && Sound(u, text) && CleanBefore(u, ls)
    && Consistent(lang, u, text, ls, left) && EndSettled(lang, u, text, ls, left)
    && Ledger(t, u, text, start, ls, ls, missed, left, swallowed) && StraysBlamed(t, u, text, ls, swallowed)
    && KeptOpen(t, text, ls, missed, left, swallowed) && ls !in swallowed
  }

  /** What a round has made of the tree. */
  ghost predicate Rounded(lang: Language, t: Segment, v: Segment, text: string, ls: nat, next: bool, need: bool, c: Context, left: set<int>, left': set<int>)
    requires lang.Consuming() && ls < |text|
  {
    var le := LineEnd(text, ls);
    && Sound(v, text) && CleanBefore(v, le) && Done(lang, t, v, text, ls, c)
    && Consistent(lang, v, text, if next then le else -1, left')
    && (le < |text| ==> EndSettled(lang, v, text, if next then le else -1, left'))
    && Decided(t, v, text, ls, next, left, left')
    && (need ==> next) && (next && !need && le < |text| ==> DirtyLine(v, text, le))
    && (le == |text| ==> InvalidCount(v.children) == 0 && next == need && (need <==> LineExit(lang, c, ls == 0, text[ls..]) != Root))
  }

  /** Where the lines begin that a round has nothing to do with. */
  function TopAfter(text: string, ls: nat, next: bool): (r: nat)
    requires ls < |text|
    ensures LineEnd(text, ls) <= r <= |text|
  {
    var le := LineEnd(text, ls);
    if next || le == |text| then le else LineEnd(text, le)
  }

  // ----- a round in the account -----

  lemma RoundBehind(lang: Language, t: Segment, u: Segment, v: Segment, text: string, start: nat, ls: nat, next: bool, c: Context, missed: set<int>, left: set<int>)
    requires lang.Consuming() && start <= ls < |text| && Behind(t, u, text, start, missed, left) && Done(lang, u, v, text, ls, c)
    ensures Behind(t, v, text, start, missed, After(u, v, text, ls, next, left))
  {
    hide LineIs, EntryIs, BothRoot, MarkHolds;
  }

  lemma RoundBeyond(lang: Language, t: Segment, u: Segment, v: Segment, text: string, ls: nat, next: bool, c: Context, missed: set<int>, left: set<int>, b: nat)
    requires lang.Consuming() && ls < |text| && IsLineStart(text, ls) && Done(lang, u, v, text, ls, c)
    requires TopAfter(text, ls, next) < b < |text| && Beyond(t, u, text, b, missed, left)
    requires forall x, y :: LineEnd(text, ls) < x < y ==> (Dirty(v.children, x, y) <==> Dirty(u.children, x, y))
    ensures Beyond(t, v, text, b, missed, After(u, v, text, ls, next, left))
  {
    hide LineIs, EntryIs, BothRoot, MarkHolds, Dirty;
  }

  lemma RoundAccount(t: Segment, u: Segment, v: Segment, text: string, start: nat, ls: nat, next: bool, missed: set<int>, left: set<int>, left': set<int>, swallowed: set<int>, a: int)
    requires start <= ls < |text| && IsLineStart(text, ls) && Decided(u, v, text, ls, next, left, left') && StraysBlamed(t, u, text, ls, swallowed)
    requires forall a :: a in left && a !in missed ==> start < a <= ls && Blamed(t, text, -1, swallowed, a)
    requires a in left' && a !in missed
    ensures start < a <= TopAfter(text, ls, next) && Blamed(t, text, -1, swallowed + LostHere(u, text, LineEnd(text, ls), next), a)
  {
    hide BothRoot, MarkHolds, Stray, Blamed, Dirty, DirtyLine;
    var le, here := LineEnd(text, ls), LostHere(u, text, LineEnd(text, ls), next);
    if a in left {
      BlamedStill(t, text, swallowed, here, a, a);
    } else if here != {} {
      Swallows(t, text, swallowed, le, a);
    } else {
      var q :| q < ls && Stray(u, text, q, ls);
      BlamedStill(t, text, swallowed, here, q, a);
    }
  }

  lemma Swallows(t: Segment, text: string, swallowed: set<int>, le: int, a: int)
    requires le <= a
    ensures Blamed(t, text, -1, swallowed + {le}, a)
  {
    assert le in swallowed + {le};
  }

  lemma RoundStrays(t: Segment, u: Segment, v: Segment, text: string, ls: nat, next: bool, left: set<int>, left': set<int>, swallowed: set<int>)
    requires ls < |text| && Decided(u, v, text, ls, next, left, left') && StraysBlamed(t, u, text, ls, swallowed)
    ensures StraysBlamed(t, v, text, if next then LineEnd(text, ls) else -1, swallowed + LostHere(u, text, LineEnd(text, ls), next))
  {
    hide BothRoot, MarkHolds, Stray, Blamed, Dirty, DirtyLine, LostHere;
    forall q | Stray(v, text, q, if next then LineEnd(text, ls) else -1)
      ensures Blamed(t, text, -1, swallowed + LostHere(u, text, LineEnd(text, ls), next), q)
    {
      BlamedOn(t, u, text, ls, swallowed, LostHere(u, text, LineEnd(text, ls), next), q);
    }
  }

  lemma RoundSwallows(lang: Language, t: Segment, u: Segment, v: Segment, text: string, start: nat, ls: nat, next: bool, c: Context, missed: set<int>, left: set<int>, left': set<int>, swallowed: set<int>, b: int)
    requires lang.Consuming() && ValidRoot(t) && ValidRoot(u) && start <= ls < |text| && IsLineStart(text, ls)
    requires Done(lang, u, v, text, ls, c) && Decided(u, v, text, ls, next, left, left') && StraysBlamed(t, u, text, ls, swallowed)
    requires Ledger(t, u, text, start, ls, ls, missed, left, swallowed) && ls !in swallowed && b in swallowed + LostHere(u, text, LineEnd(text, ls), next)
    ensures start < b <= LineEnd(text, ls) && b < |text| && IsLineStart(text, b) && !MarkHolds(t, text, b)
    ensures LossEnds(t, v, text, left', swallowed + LostHere(u, text, LineEnd(text, ls), next), b)
  {
    hide BothRoot, MarkHolds, Stray, Blamed, Dirty, DirtyLine, Doubt, DoubtEnds, Beyond, Behind, LineIs, EntryIs;
    var le, here := LineEnd(text, ls), LostHere(u, text, LineEnd(text, ls), next);
    if b in swallowed {
      LossStays(lang, t, u, v, text, ls, next, c, left, swallowed, here, b);
    } else {
      LostIsInText(u, text, le, next);
      assert b == le;
      BeyondLine(t, u, text, b, missed, left);
      KeptHere(lang, t, u, v, text, ls, c, missed, left);
      if !BothRoot(v, le) {
        var q :| q < ls && Stray(u, text, q, ls);
        BlamedStill(t, text, swallowed, here, q, le - 1);
      }
    }
  }

  /** A line whose mark was lost earlier. */
  lemma LossStays(lang: Language, t: Segment, u: Segment, v: Segment, text: string, ls: nat, next: bool, c: Context, left: set<int>, swallowed: set<int>, here: set<int>, b: int)
    requires lang.Consuming() && ls < |text| && IsLineStart(text, ls) && Done(lang, u, v, text, ls, c)
    requires b < ls && IsLineStart(text, b) && LossEnds(t, u, text, left, swallowed, b)
    ensures LossEnds(t, v, text, After(u, v, text, ls, next, left), swallowed + here, b)
  {
    hide MarkHolds, Stray, Blamed, LineIs, EntryIs;
    LinesMeetAt(text, b, ls);
    if Blamed(t, text, -1, swallowed, b - 1) { BlamedStill(t, text, swallowed, here, b - 1, b - 1); }
  }

  lemma LostIsInText(u: Segment, text: string, le: nat, next: bool)
    requires LostHere(u, text, le, next) != {}
    ensures le < |text|
  {
  }

  // ----- a line in doubt -----

  /** There is no stray beginning before a line in doubt. */
  lemma NoStrayBefore(t: Segment, u: Segment, text: string, ls: nat, missed: set<int>, swallowed: set<int>, b: int)
    requires StraysBlamed(t, u, text, ls, swallowed) && Doubt(t, text, missed, b) && First(swallowed, b) && ls < b
    ensures forall q :: q < ls ==> !Stray(u, text, q, ls)
  {
    hide Stray, MarkHolds, DirtyLine;
    forall q | Stray(u, text, q, ls) ensures b <= q {
      var d :| d <= q && (d in swallowed || Stray(t, text, d, -1));
    }
  }

  /** The round before a line in doubt: it is gone on with exactly if the states disagree. */
  lemma DoubtDecided(lang: Language, t: Segment, u: Segment, v: Segment, text: string, start: nat, ls: nat, next: bool, c: Context, missed: set<int>, left: set<int>, left': set<int>, swallowed: set<int>)
    requires lang.Consuming() && ValidRoot(t) && ValidRoot(u) && start <= ls < |text| && LineEnd(text, ls) < |text|
    requires Ledger(t, u, text, start, ls, ls, missed, left, swallowed) && StraysBlamed(t, u, text, ls, swallowed)
    requires Done(lang, u, v, text, ls, c) && Decided(u, v, text, ls, next, left, left')
    requires Doubt(t, text, missed, LineEnd(text, ls)) && First(swallowed, LineEnd(text, ls))
    ensures var b := LineEnd(text, ls);
      && (b in left' <==> !next) && (!next <==> BothRoot(v, b)) && ContextAt(v, b) == ContextAt(t, b)
      && !DirtyLine(v, text, b) && KeptLine(t, v, text, b)
  {
    hide Stray, Dirty, Behind, DoubtEnds, LossEnds, LineIs, EntryIs, Blamed, LineEnd;
    var b := LineEnd(text, ls);
    NoStrayBefore(t, u, text, ls, missed, swallowed, b);
    DoubtClean(t, u, v, text, ls, next, missed, left, left');
    KeptHere(lang, t, u, v, text, ls, c, missed, left);
  }

  lemma KeptHere(lang: Language, t: Segment, u: Segment, v: Segment, text: string, ls: nat, c: Context, missed: set<int>, left: set<int>)
    requires lang.Consuming() && ls < |text| && LineEnd(text, ls) < |text| && Beyond(t, u, text, LineEnd(text, ls), missed, left) && Done(lang, u, v, text, ls, c)
    ensures forall o :: LineEnd(text, ls) <= o < |text| ==> ContextAt(v, o) == ContextAt(t, o)
  {
    hide LineIs, EntryIs, Dirty;
    forall o | LineEnd(text, ls) <= o < |text| ensures ContextAt(v, o) == ContextAt(t, o) {
      assert ContextAt(u, o) == ContextAt(t, o);
    }
  }

  lemma DoubtClean(t: Segment, u: Segment, v: Segment, text: string, ls: nat, next: bool, missed: set<int>, left: set<int>, left': set<int>)
    requires ValidRoot(t) && ValidRoot(u) && ls < |text| && LineEnd(text, ls) < |text| && Beyond(t, u, text, LineEnd(text, ls), missed, left)
    requires Decided(u, v, text, ls, next, left, left') && Doubt(t, text, missed, LineEnd(text, ls))
    ensures var b := LineEnd(text, ls); !DirtyLine(v, text, b) && (b in left' <==> !next)
  {
    hide Stray, Beyond, Blamed, BothRoot, MarkHolds, DirtyLine;
    BeyondLine(t, u, text, LineEnd(text, ls), missed, left);
  }

  /** A line in doubt that is done stays so. */
  lemma DoubtStays(lang: Language, t: Segment, u: Segment, v: Segment, text: string, ls: nat, next: bool, c: Context, missed: set<int>, left: set<int>, b: int)
    requires lang.Consuming() && ls < |text| && IsLineStart(text, ls) && Done(lang, u, v, text, ls, c) && CleanBefore(v, LineEnd(text, ls))
    requires Doubt(t, text, missed, b) && b <= ls && DoubtEnds(t, u, text, left, b)
    requires b in left ==> b < ls && !CleanFrom(t, text, b)
    ensures DoubtEnds(t, v, text, After(u, v, text, ls, next, left), b)
  {
    hide LineIs, EntryIs, BothRoot, MarkHolds, Stray, CleanFrom, SameFrom;
    if b in left {
      LinesMeetAt(text, b, ls);
      if DirtyLine(v, text, b) { DirtyWiden(v.children, b, Top(text, LineEnd(text, b)), 0, LineEnd(text, ls)); }
    }
  }

  /** With the round a line in doubt that begins up to the end of the analyzed line is
      decided. */
  lemma RoundDoubts(lang: Language, t: Segment, u: Segment, v: Segment, text: string, start: nat, ls: nat, next: bool, c: Context, missed: set<int>, left: set<int>, left': set<int>, swallowed: set<int>, b: int)
    requires lang.Consuming() && Sound(t, text) && IsFirstLine(t, text, start) && Underway(lang, t, u, text, start, ls, missed, left, swallowed) && ls < |text|
    requires Done(lang, u, v, text, ls, c) && CleanBefore(v, LineEnd(text, ls)) && Decided(u, v, text, ls, next, left, left')
    requires Doubt(t, text, missed, b) && First(swallowed, b) && b <= LineEnd(text, ls)
    ensures DoubtEnds(t, v, text, left', b)
    ensures b <= ls && b in left' ==> b < ls && !CleanFrom(t, text, b)
    ensures b in left' ==> !next || b <= ls
  {
    hide LineIs, EntryIs, MarkHolds, Stray, Blamed, Consistent, EndSettled, Beyond, Behind, Dirty, BothRoot, LossEnds;
    if b <= ls {
      DoubtStays(lang, t, u, v, text, ls, next, c, missed, left, b);
    } else {
      LinesMeetAt(text, ls, b);
      DoubtDecided(lang, t, u, v, text, start, ls, next, c, missed, left, left', swallowed);
      DecidedEnds(lang, t, u, v, text, ls, next, c, missed, left, left');
    }
  }

  lemma DecidedEnds(lang: Language, t: Segment, u: Segment, v: Segment, text: string, ls: nat, next: bool, c: Context, missed: set<int>, left: set<int>, left': set<int>)
    requires lang.Consuming() && Sound(t, text) && Sound(u, text) && ls < |text| && LineEnd(text, ls) < |text| && Done(lang, u, v, text, ls, c)
    requires Beyond(t, u, text, LineEnd(text, ls), missed, left) && Decided(u, v, text, ls, next, left, left')
    requires var b := LineEnd(text, ls);
      && (b in left' <==> !next) && (!next <==> BothRoot(v, b)) && ContextAt(v, b) == ContextAt(t, b) && !DirtyLine(v, text, b) && KeptLine(t, v, text, b)
    ensures DoubtEnds(t, v, text, left', LineEnd(text, ls))
  {
    hide LineIs, EntryIs, MarkHolds, Stray, Blamed;
    var b := LineEnd(text, ls);
    if b in left' && CleanFrom(t, text, b) {
      BeyondLine(t, u, text, b, missed, left);
      KeptHere(lang, t, u, v, text, ls, c, missed, left);
      RestClean(u, v, text, b);
    }
  }

  lemma RestClean(u: Segment, v: Segment, text: string, b: nat)
    requires b < |text| && !DirtyLine(v, text, b) && CleanFrom(u, text, b)
    requires forall x, y :: b < x < y ==> (Dirty(v.children, x, y) <==> Dirty(u.children, x, y))
    ensures CleanFrom(v, text, b)
  {
    var y := Top(text, LineEnd(text, b));
    if y <= |text| && Dirty(v.children, b, |text| + 1) {
      DirtySplit(v.children, b, y, |text| + 1);
      DirtyWiden(u.children, y, |text| + 1, b, |text| + 1);
    }
  }

  lemma FirstOf(swallowed: set<int>, here: set<int>, b: int)
    requires First(swallowed + here, b)
    ensures First(swallowed, b) && First(here, b)
  {
  }

  lemma RoundLedger(lang: Language, t: Segment, u: Segment, v: Segment, text: string, start: nat, ls: nat, next: bool, need: bool, c: Context, missed: set<int>, left: set<int>, left': set<int>, swallowed: set<int>)
    requires lang.Consuming() && Sound(t, text) && IsFirstLine(t, text, start) && Underway(lang, t, u, text, start, ls, missed, left, swallowed) && ls < |text|
    requires Rounded(lang, u, v, text, ls, next, need, c, left, left')
    ensures var le := LineEnd(text, ls); var all := swallowed + LostHere(u, text, le, next);
      && Ledger(t, v, text, start, le, TopAfter(text, ls, next), missed, left', all)
      && StraysBlamed(t, v, text, if next then le else -1, all)
    ensures forall b :: Doubt(t, text, missed, b) && First(swallowed + LostHere(u, text, LineEnd(text, ls), next), b) && b <= LineEnd(text, ls) && b in left' ==>
      if b <= ls then b < ls && !CleanFrom(t, text, b) else !next
    ensures forall b :: b in swallowed + LostHere(u, text, LineEnd(text, ls), next) ==> b <= ls || !next
  {
    hide LineIs, EntryIs, MarkHolds, Stray, Blamed, Consistent, EndSettled, Beyond, Behind, Dirty, BothRoot, Doubt, DoubtEnds, LossEnds, First, After, LineExit, CleanFrom;
    var le := LineEnd(text, ls);
    RoundBehind(lang, t, u, v, text, start, ls, next, c, missed, left);
    forall b: nat | TopAfter(text, ls, next) < b < |text| && IsLineStart(text, b) ensures Beyond(t, v, text, b, missed, left') {
      RoundBeyond(lang, t, u, v, text, ls, next, c, missed, left, b);
    }
    forall a | a in left' && a !in missed
      ensures start < a <= TopAfter(text, ls, next) && Blamed(t, text, -1, swallowed + LostHere(u, text, le, next), a)
    {
      RoundAccount(t, u, v, text, start, ls, next, missed, left, left', swallowed, a);
    }
    forall b | b in swallowed + LostHere(u, text, le, next)
      ensures start < b <= le && b < |text| && IsLineStart(text, b) && !MarkHolds(t, text, b)
      ensures LossEnds(t, v, text, left', swallowed + LostHere(u, text, le, next), b)
    {
      RoundSwallows(lang, t, u, v, text, start, ls, next, c, missed, left, left', swallowed, b);
    }
    forall b | Doubt(t, text, missed, b) && First(swallowed + LostHere(u, text, le, next), b) && b <= le
      ensures DoubtEnds(t, v, text, left', b) && (b in left' ==> if b <= ls then b < ls && !CleanFrom(t, text, b) else !next)
    {
      FirstOf(swallowed, LostHere(u, text, le, next), b);
      RoundDoubts(lang, t, u, v, text, start, ls, next, c, missed, left, left', swallowed, b);
    }
    RoundStrays(t, u, v, text, ls, next, left, left', swallowed);
  }

  // ----- going on -----

  /** The analysis goes on beyond the line that was left as it is. */
  lemma SkipsLine(v: Segment, text: string, le: nat, invalid: nat)
    requires Sound(v, text) && le < |text| && IsLineStart(text, le) && !DirtyLine(v, text, le)
    requires le <= invalid <= |text| && CleanBefore(v, invalid) && Dirty(v.children, invalid, invalid + 1)
    ensures LineEnd(text, le) <= LineStart(text, invalid) && CleanBefore(v, LineStart(text, invalid))
  {
    var a := LineStart(text, invalid);
    StartAfter(text, le, invalid);
    LineOf(text, invalid);
    if a == le {
      DirtyWiden(v.children, invalid, invalid + 1, le, Top(text, LineEnd(text, le)));
    } else {
      LinesBefore(text, le, a);
    }
    if Dirty(v.children, 0, a) { DirtyWiden(v.children, 0, a, 0, invalid); }
  }

  /** A line in doubt that is skipped was not after one to analyze: it stays missed, with
      the state before it. */
  lemma SkippedDoubt(lang: Language, t: Segment, u: Segment, v: Segment, text: string, ls: nat, c: Context, missed: set<int>, left: set<int>, left': set<int>, swallowed: set<int>, b: int)
    requires lang.Consuming() && Sound(t, text) && Sound(u, text) && ls < |text| && IsLineStart(text, ls) && LineEnd(text, ls) < |text|
    requires forall d: nat :: ls < d < |text| && IsLineStart(text, d) ==> Beyond(t, u, text, d, missed, left)
    requires Done(lang, u, v, text, ls, c) && Decided(u, v, text, ls, false, left, left')
    requires Doubt(t, text, missed, b) && First(swallowed + LostHere(u, text, LineEnd(text, ls), false), b) && CleanBefore(v, b) && LineEnd(text, ls) < b
    ensures DoubtEnds(t, v, text, left', b) && b in left' && !DirtyLine(v, text, b)
  {
    hide Stray, Blamed, BothRoot, Beyond, MarkHolds, LineIs, EntryIs, Dirty, DirtyLine;
    var le, p := LineEnd(text, ls), PreviousLine(text, b);
    PreviousAfter(text, le, b);
    LinesMeetAt(text, p, b);
    CleanLine(v, text, p, b);
    BeyondLine(t, u, text, p, missed, left);
    BeyondLine(t, u, text, b, missed, left);
    PreviousClean(t, u, v, text, ls, left, left', swallowed, b);
    SkippedKept(lang, t, u, v, text, ls, c, p, b);
    AheadLine(u, v, text, le, b);
  }

  lemma PreviousClean(t: Segment, u: Segment, v: Segment, text: string, ls: nat, left: set<int>, left': set<int>, swallowed: set<int>, b: nat)
    requires ls < |text| && IsLineStart(text, ls) && LineEnd(text, ls) < b < |text| && LineEnd(text, ls) <= PreviousLine(text, b)
    requires Decided(u, v, text, ls, false, left, left') && First(swallowed + LostHere(u, text, LineEnd(text, ls), false), b)
    requires !DirtyLine(v, text, PreviousLine(text, b)) && (DirtyLine(u, text, PreviousLine(text, b)) <==> DirtyLine(t, text, PreviousLine(text, b)))
    ensures !DirtyLine(t, text, PreviousLine(text, b))
  {
    hide Stray, Blamed, BothRoot, MarkHolds, Dirty;
    var le := LineEnd(text, ls);
    assert LostHere(u, text, le, false) != {} ==> le in swallowed + LostHere(u, text, le, false);
  }

  lemma SkippedKept(lang: Language, t: Segment, u: Segment, v: Segment, text: string, ls: nat, c: Context, p: nat, b: nat)
    requires lang.Consuming() && ls < |text| && Done(lang, u, v, text, ls, c) && LineEnd(text, ls) <= p < b < |text| && SameFrom(t, u, text, p)
    ensures SameFrom(t, v, text, p) && KeptLine(t, v, text, b) && ContextAt(v, b - 1) == ContextAt(t, b - 1) && SameFrom(t, v, text, b)
  {
    hide LineIs, EntryIs;
  }

  lemma AheadLine(u: Segment, v: Segment, text: string, le: nat, b: nat)
    requires le < b < |text| && forall x, y :: le < x < y ==> (Dirty(v.children, x, y) <==> Dirty(u.children, x, y))
    ensures DirtyLine(v, text, b) <==> DirtyLine(u, text, b)
    ensures CleanFrom(v, text, b) <==> CleanFrom(u, text, b)
  {
    hide Dirty;
  }

  lemma Weaken(lang: Language, t: Segment, v: Segment, text: string, cur: int, left: set<int>, swallowed: set<int>)
    requires lang.Consuming() && Consistent(lang, v, text, -1, left) && EndSettled(lang, v, text, -1, left) && StraysBlamed(t, v, text, -1, swallowed)
    ensures Consistent(lang, v, text, cur, left) && EndSettled(lang, v, text, cur, left) && StraysBlamed(t, v, text, cur, swallowed)
  {
    hide Blamed;
    ConsistentWeaken(lang, v, text, cur, left);
    forall q | Stray(v, text, q, cur) ensures Stray(v, text, q, -1) {
    }
  }

  /** Going on with the next line, or with that of the first invalid segment. */
  lemma GoOn(lang: Language, t: Segment, u: Segment, v: Segment, text: string, start: nat, ls: nat, next: bool, need: bool, c: Context, invalid: nat,
             missed: set<int>, left: set<int>, left': set<int>, swallowed: set<int>)
    requires lang.Consuming() && Sound(t, text) && IsFirstLine(t, text, start) && Underway(lang, t, u, text, start, ls, missed, left, swallowed)
    requires ls < |text| && LineEnd(text, ls) < |text| && Rounded(lang, u, v, text, ls, next, need, c, left, left')
    requires !next ==> LineEnd(text, ls) <= invalid <= |text| && CleanBefore(v, invalid) && Dirty(v.children, invalid, invalid + 1)
    ensures var a := if next then LineEnd(text, ls) else LineStart(text, invalid);
      LineEnd(text, ls) <= a && Underway(lang, t, v, text, start, a, missed, left', swallowed + LostHere(u, text, LineEnd(text, ls), next))
  {
    hide LineIs, EntryIs, MarkHolds, Stray, Blamed, Consistent, EndSettled, Beyond, Behind, Dirty, BothRoot, Doubt, DoubtEnds, LossEnds, First, LostHere, LineExit, CleanFrom, DirtyLine, StraysBlamed;
    var le := LineEnd(text, ls);
    RoundLedger(lang, t, u, v, text, start, ls, next, need, c, missed, left, left', swallowed);
    if next {
      LostNone(u, text, le, swallowed);
    } else {
      GoesFurther(lang, t, u, v, text, start, ls, need, c, invalid, missed, left, left', swallowed);
    }
  }

  lemma LostNone(u: Segment, text: string, le: nat, swallowed: set<int>)
    ensures LostHere(u, text, le, true) == {} && swallowed + LostHere(u, text, le, true) == swallowed
  {
  }

  lemma GoesFurther(lang: Language, t: Segment, u: Segment, v: Segment, text: string, start: nat, ls: nat, need: bool, c: Context, invalid: nat,
                    missed: set<int>, left: set<int>, left': set<int>, swallowed: set<int>)
    requires lang.Consuming() && Sound(t, text) && IsFirstLine(t, text, start) && Underway(lang, t, u, text, start, ls, missed, left, swallowed)
    requires ls < |text| && LineEnd(text, ls) < |text| && Rounded(lang, u, v, text, ls, false, need, c, left, left')
    requires LineEnd(text, ls) <= invalid <= |text| && CleanBefore(v, invalid) && Dirty(v.children, invalid, invalid + 1)
    requires var le := LineEnd(text, ls); var all := swallowed + LostHere(u, text, le, false);
      Ledger(t, v, text, start, le, TopAfter(text, ls, false), missed, left', all) && StraysBlamed(t, v, text, -1, all)
    requires forall b :: Doubt(t, text, missed, b) && First(swallowed + LostHere(u, text, LineEnd(text, ls), false), b) && b <= ls && b in left' ==>
      b < ls && !CleanFrom(t, text, b)
    ensures var a := LineStart(text, invalid);
      LineEnd(text, ls) <= a && Underway(lang, t, v, text, start, a, missed, left', swallowed + LostHere(u, text, LineEnd(text, ls), false))
  {
    hide LineIs, EntryIs, MarkHolds, Stray, Blamed, Consistent, EndSettled, Beyond, Behind, Dirty, BothRoot, Doubt, DoubtEnds, LossEnds, First, LostHere, LineExit, CleanFrom, DirtyLine, StraysBlamed;
    var le, a := LineEnd(text, ls), LineStart(text, invalid);
    SkipsLine(v, text, le, invalid);
    Weaken(lang, t, v, text, a, left', swallowed + LostHere(u, text, le, false));
    forall b | Doubt(t, text, missed, b) && First(swallowed + LostHere(u, text, le, false), b) && b <= a
      ensures DoubtEnds(t, v, text, left', b) && (b in left' ==> b < a && !CleanFrom(t, text, b))
    {
      DoubtFurther(lang, t, u, v, text, start, ls, need, c, invalid, missed, left, left', swallowed, b);
    }
  }

  lemma DoubtFurther(lang: Language, t: Segment, u: Segment, v: Segment, text: string, start: nat, ls: nat, need: bool, c: Context, invalid: nat,
                     missed: set<int>, left: set<int>, left': set<int>, swallowed: set<int>, b: int)
    requires lang.Consuming() && Sound(t, text) && Underway(lang, t, u, text, start, ls, missed, left, swallowed)
    requires ls < |text| && LineEnd(text, ls) < |text| && Rounded(lang, u, v, text, ls, false, need, c, left, left')
    requires LineEnd(text, ls) <= invalid <= |text| && CleanBefore(v, invalid) && Dirty(v.children, invalid, invalid + 1)
    requires var le := LineEnd(text, ls);
      Ledger(t, v, text, start, le, TopAfter(text, ls, false), missed, left', swallowed + LostHere(u, text, le, false))
    requires Doubt(t, text, missed, b) && First(swallowed + LostHere(u, text, LineEnd(text, ls), false), b) && b <= LineStart(text, invalid)
    requires b <= ls && b in left' ==> b < ls && !CleanFrom(t, text, b)
    requires LineEnd(text, ls) < LineStart(text, invalid) <= invalid && CleanBefore(v, LineStart(text, invalid))
    ensures DoubtEnds(t, v, text, left', b) && (b in left' ==> b < LineStart(text, invalid) && !CleanFrom(t, text, b))
  {
    hide LineIs, EntryIs, MarkHolds, Stray, Blamed, Consistent, EndSettled, Beyond, Behind, Dirty, BothRoot, Doubt, DoubtEnds, LossEnds, First, LostHere, LineExit, CleanFrom, DirtyLine, StraysBlamed;
    var a := LineStart(text, invalid);
    DoubtInText(t, text, missed, b);
    if LineEnd(text, ls) < b {
      NarrowClean(v, b, a);
      SkippedDoubt(lang, t, u, v, text, ls, c, missed, left, left', swallowed, b);
      NotCleanFrom(t, u, v, text, ls, missed, left, left', invalid, b);
      FirstIsDirty(v, text, invalid);
    } else if ls < b {
      LinesMeetAt(text, ls, b);
      NotCleanFrom(t, u, v, text, ls, missed, left, left', invalid, b);
    }
  }

  lemma FirstIsDirty(v: Segment, text: string, invalid: nat)
    requires invalid <= |text| && Dirty(v.children, invalid, invalid + 1)
    ensures LineStart(text, invalid) < |text| ==> DirtyLine(v, text, LineStart(text, invalid))
  {
    var a := LineStart(text, invalid);
    LineOf(text, invalid);
    if a < |text| { DirtyWiden(v.children, invalid, invalid + 1, a, Top(text, LineEnd(text, a))); }
  }

  lemma NarrowClean(v: Segment, a: int, b: int)
    requires CleanBefore(v, b) && a <= b
    ensures CleanBefore(v, a)
  {
    if Dirty(v.children, 0, a) { DirtyWiden(v.children, 0, a, 0, b); }
  }

  lemma NotCleanFrom(t: Segment, u: Segment, v: Segment, text: string, ls: nat, missed: set<int>, left: set<int>, left': set<int>, invalid: nat, b: nat)
    requires ls < |text| && LineEnd(text, ls) <= b <= invalid <= |text| && LineEnd(text, ls) < invalid && Beyond(t, u, text, b, missed, left)
    requires Decided(u, v, text, ls, false, left, left') && Dirty(v.children, invalid, invalid + 1)
    ensures !CleanFrom(t, text, b)
  {
    hide Stray, Blamed, BothRoot, MarkHolds, DirtyLine;
    assert Dirty(u.children, invalid, invalid + 1);
    assert Dirty(t.children, invalid, invalid + 1);
    DirtyWiden(t.children, invalid, invalid + 1, b, |text| + 1);
  }

  // ----- stopping -----

  ghost predicate SameAhead(t: Segment, u: Segment, text: string, b: int) {
    && SameFrom(t, u, text, b)
    && (forall x, y :: b <= x < y ==> (Dirty(u.children, x, y) <==> Dirty(t.children, x, y)))
  }

  /** Nothing has changed after the line that ends at `e`: but for a mark at `e`, which may
      cost a simple segment there its context. */
  ghost predicate Untouched(t: Segment, u: Segment, text: string, e: int) {
    && (forall o :: e <= o < |text| ==> ContextAt(u, o) == ContextAt(t, o) || LostSimple(t, u, o))
    && (forall b: nat :: e < b < |text| && IsLineStart(text, b) ==> SameAhead(t, u, text, b))
  }

  lemma RoundUntouched(lang: Language, t: Segment, v: Segment, w: Segment, text: string, ls: nat, next: bool, need: bool, c: Context, left: set<int>, left': set<int>)
    requires lang.Consuming() && ls < |text| && Rounded(lang, t, v, text, ls, next, need, c, left, left') && Untouched(v, w, text, LineEnd(text, ls))
    ensures Untouched(t, w, text, LineEnd(text, ls))
  {
    hide Dirty, ContextAt, LineIs, EntryIs, Stray, Blamed, After, BothRoot, MarkHolds, DirtyLine, LineExit, Consistent, EndSettled;
    var le := LineEnd(text, ls);
    forall b: nat | le < b < |text| && IsLineStart(text, b) ensures SameAhead(t, w, text, b) {
      assert SameAhead(v, w, text, b);
    }
  }

  /** Whatever was done before the line at `le` is as it was. */
  lemma BehindStays(t: Segment, v: Segment, w: Segment, text: string, start: nat, le: nat, missed: set<int>, left: set<int>, a: nat)
    requires IsFirstLine(t, text, start) && start <= le && Behind(t, v, text, start, missed, left) && CleanBefore(w, start)
    requires forall o :: 0 <= o < le && o < |text| ==> ContextAt(w, o) == ContextAt(v, o)
    requires a <= |text| && IsLineStart(text, a) && CleanBefore(t, a)
    ensures CleanBefore(w, a) && Behind(t, w, text, a, missed, left)
  {
    hide ContextAt;
    NarrowClean(w, a, start);
  }

  /** A line in doubt that was decided before. */
  lemma DoubtKept(t: Segment, v: Segment, w: Segment, text: string, missed: set<int>, left: set<int>, ls: nat, b: int)
    requires ls <= |text| && IsLineStart(text, ls) && Doubt(t, text, missed, b) && b <= ls && DoubtEnds(t, v, text, left, b) && CleanBefore(w, ls)
    requires b in left ==> b < ls && !CleanFrom(t, text, b)
    requires forall o :: 0 <= o < ls ==> ContextAt(w, o) == ContextAt(v, o)
    ensures DoubtEnds(t, w, text, left, b)
  {
    hide MarkHolds, Stray, CleanFrom, SameFrom;
    if b in left {
      LinesMeetAt(text, b, ls);
      CleanLine(w, text, b, ls);
    }
  }

  lemma LossKept(t: Segment, v: Segment, w: Segment, text: string, left: set<int>, swallowed: set<int>, e: nat, b: int)
    requires e <= |text| && IsLineStart(text, e) && IsLineStart(text, b) && b < e && LossEnds(t, v, text, left, swallowed, b)
    requires forall o :: 0 <= o < e ==> ContextAt(w, o) == ContextAt(v, o)
    ensures LossEnds(t, w, text, left, swallowed, b)
  {
    hide Blamed;
    LinesMeetAt(text, b, e);
  }

  /** At the end of the text no mark is lost. */
  lemma LossIsEarlier(u: Segment, text: string, ls: nat, next: bool, swallowed: set<int>, b: int)
    requires ls < |text| && LineEnd(text, ls) == |text| && IsLineStart(text, ls) && ls !in swallowed
    requires b in swallowed + LostHere(u, text, |text|, next) && 0 <= b < |text| && IsLineStart(text, b)
    ensures b < ls
  {
    LastOnly(text, ls);
    LastStart(text, b);
  }

  lemma LastStart(text: string, b: nat)
    requires b < |text| && IsLineStart(text, b)
    ensures b <= LastLine(text)
  {
    var a := LastLine(text);
    assert a < b ==> text[b - 1] == '\n';
  }

  /** The end of the text is reached. */
  lemma EndUpdated(lang: Language, t: Segment, u: Segment, v: Segment, w: Segment, text: string, start: nat, ls: nat, next: bool, need: bool, c: Context,
                   missed: set<int>, left: set<int>, left': set<int>, swallowed: set<int>)
    requires lang.Consuming() && Sound(t, text) && IsFirstLine(t, text, start) && Underway(lang, t, u, text, start, ls, missed, left, swallowed)
    requires ls < |text| && LineEnd(text, ls) == |text| && Rounded(lang, u, v, text, ls, next, need, c, left, left')
    requires Sound(w, text) && InvalidCount(w.children) == 0 && Consistent(lang, w, text, -1, left') && EndSettled(lang, w, text, -1, left')
    requires forall o :: 0 <= o < ls ==> ContextAt(w, o) == ContextAt(v, o)
    requires forall q :: NonStart(w.children, q) && q != |text| ==> NonStart(v.children, q)
    ensures Updated(lang, t, w, text, missed, left', swallowed + LostHere(u, text, |text|, next))
  {
    hide LineIs, EntryIs, MarkHolds, Stray, Blamed, Consistent, EndSettled, Beyond, Behind, Dirty, BothRoot, Doubt, DoubtEnds, LossEnds, First, LostHere, LineExit, CleanFrom, After, Done;
    RoundLedger(lang, t, u, v, text, start, ls, next, need, c, missed, left, left', swallowed);
    EndClean(w, text);
    forall a: nat | a <= |text| && IsLineStart(text, a) && CleanBefore(t, a) ensures CleanBefore(w, a) && Behind(t, w, text, a, missed, left') {
      BehindStays(t, v, w, text, start, ls, missed, left', a);
    }
    forall q | Stray(w, text, q, -1) ensures Stray(v, text, q, if next then |text| else -1) {
      EndStray(v, w, text, q, if next then |text| else -1);
    }
    forall b | Doubt(t, text, missed, b) && First(swallowed + LostHere(u, text, |text|, next), b) ensures DoubtEnds(t, w, text, left', b) {
      DoubtInText(t, text, missed, b);
      DoubtKept(t, v, w, text, missed, left', ls, b);
    }
    forall b | b in swallowed + LostHere(u, text, |text|, next)
      ensures LosesMark(t, w, text, b) && LossEnds(t, w, text, left', swallowed + LostHere(u, text, |text|, next), b)
    {
      assert 0 < b < |text| && !CleanBefore(t, b);
      LossIsEarlier(u, text, ls, next, swallowed, b);
      LossKept(t, v, w, text, left', swallowed + LostHere(u, text, |text|, next), ls, b);
    }
  }

  lemma EndStray(v: Segment, w: Segment, text: string, q: int, cur: int)
    requires Sound(w, text) && Stray(w, text, q, -1) && InvalidCount(v.children) == 0 && (cur == -1 || cur == |text|)
    requires forall q :: NonStart(w.children, q) && q != |text| ==> NonStart(v.children, q)
    ensures Stray(v, text, q, cur)
  {
    NonStartNotRoot(w, q);
    if NonStartOk(v, text, q, cur) {
      var a := LineStart(text, q);
      CountZero(v.children, a, Top(text, LineEnd(text, a)));
      if a > 0 { CountZero(v.children, PreviousLine(text, a), Top(text, LineEnd(text, PreviousLine(text, a)))); }
    }
  }

  /** The analysis stops before the end of the text; the next line is marked if it is to be
      analyzed. */
  lemma NextUpdated(lang: Language, t: Segment, u: Segment, v: Segment, w: Segment, text: string, start: nat, ls: nat, next: bool, need: bool, c: Context,
                    missed: set<int>, left: set<int>, left': set<int>, swallowed: set<int>)
    requires lang.Consuming() && Sound(t, text) && IsFirstLine(t, text, start) && Underway(lang, t, u, text, start, ls, missed, left, swallowed)
    requires ls < |text| && LineEnd(text, ls) < |text| && Rounded(lang, u, v, text, ls, next, need, c, left, left')
    requires Sound(w, text) && Consistent(lang, w, text, -1, left') && EndSettled(lang, w, text, -1, left') && (!next ==> w == v)
    requires CleanBefore(w, LineEnd(text, ls)) && (next ==> DirtyLine(w, text, LineEnd(text, ls)))
    requires forall q :: Stray(w, text, q, -1) ==> Stray(v, text, q, if next then LineEnd(text, ls) else -1)
    requires forall o :: 0 <= o < LineEnd(text, ls) ==> ContextAt(w, o) == ContextAt(v, o)
    requires forall b: nat :: LineEnd(text, ls) < b < |text| && IsLineStart(text, b) ==> Beyond(v, w, text, b, left', left')
    ensures Updated(lang, t, w, text, missed, left', swallowed + LostHere(u, text, LineEnd(text, ls), next))
  {
    hide LineIs, EntryIs, MarkHolds, Stray, Blamed, Consistent, EndSettled, Beyond, Behind, Dirty, BothRoot, Doubt, DoubtEnds, LossEnds, First, LostHere, LineExit, CleanFrom, DirtyLine, CleanBefore;
    var le := LineEnd(text, ls);
    RoundLedger(lang, t, u, v, text, start, ls, next, need, c, missed, left, left', swallowed);
    NarrowClean(w, start, le);
    forall a: nat | a <= |text| && IsLineStart(text, a) && CleanBefore(t, a) ensures CleanBefore(w, a) && Behind(t, w, text, a, missed, left') {
      BehindStays(t, v, w, text, start, le, missed, left', a);
    }
    forall b: nat | b < |text| && IsLineStart(text, b) && !CleanBefore(w, b) ensures Beyond(t, w, text, b, missed, left') {
      NextBeyond(t, v, w, text, ls, next, missed, left', b);
    }
    forall b | b in swallowed + LostHere(u, text, le, next)
      ensures LosesMark(t, w, text, b) && LossEnds(t, w, text, left', swallowed + LostHere(u, text, le, next), b)
    {
      NextLoses(t, v, w, text, start, ls, next, b);
      if b < le { LossKept(t, v, w, text, left', swallowed + LostHere(u, text, le, next), le, b); }
    }
    forall b | Doubt(t, text, missed, b) && First(swallowed + LostHere(u, text, le, next), b) && CleanBefore(w, b) ensures DoubtEnds(t, w, text, left', b) {
      NextDoubt(lang, t, u, v, w, text, start, ls, next, need, c, missed, left, left', swallowed, b);
    }
  }

  lemma NextBeyond(t: Segment, v: Segment, w: Segment, text: string, ls: nat, next: bool, missed: set<int>, left: set<int>, b: nat)
    requires Sound(v, text) && ls < |text| && LineEnd(text, ls) < |text| && CleanBefore(w, LineEnd(text, ls)) && (!next ==> w == v && !DirtyLine(v, text, LineEnd(text, ls)))
    requires forall b: nat :: TopAfter(text, ls, next) < b < |text| && IsLineStart(text, b) ==> Beyond(t, v, text, b, missed, left)
    requires forall b: nat :: LineEnd(text, ls) < b < |text| && IsLineStart(text, b) ==> Beyond(v, w, text, b, left, left)
    requires b < |text| && IsLineStart(text, b) && !CleanBefore(w, b)
    ensures Beyond(t, w, text, b, missed, left)
  {
    hide Beyond, Dirty;
    var le := LineEnd(text, ls);
    if b <= le {
      NarrowClean(w, b, le);
    } else {
      LinesMeetAt(text, le, b);
      if !next && b == LineEnd(text, le) { DirtySplit(v.children, 0, le, b); }
      assert Beyond(t, v, text, b, missed, left) && Beyond(v, w, text, b, left, left);
      BeyondTwice(t, v, w, text, missed, left, b);
    }
  }

  lemma BeyondTwice(t: Segment, v: Segment, w: Segment, text: string, missed: set<int>, left: set<int>, b: int)
    requires Beyond(t, v, text, b, missed, left) && Beyond(v, w, text, b, left, left)
    ensures Beyond(t, w, text, b, missed, left)
  {
    hide Dirty;
  }

  lemma NextLoses(t: Segment, v: Segment, w: Segment, text: string, start: nat, ls: nat, next: bool, b: int)
    requires IsFirstLine(t, text, start) && ls < |text| && LineEnd(text, ls) < |text| && CleanBefore(w, LineEnd(text, ls))
    requires !next ==> w == v && !DirtyLine(v, text, LineEnd(text, ls))
    requires start < b <= LineEnd(text, ls) && IsLineStart(text, b) && !MarkHolds(t, text, b) && (b <= ls || !next)
    ensures LosesMark(t, w, text, b)
  {
    hide MarkHolds, Dirty;
    var le := LineEnd(text, ls);
    NarrowClean(w, b, le);
    if b < le { CleanLine(w, text, b, le); }
  }

  lemma NextDoubt(lang: Language, t: Segment, u: Segment, v: Segment, w: Segment, text: string, start: nat, ls: nat, next: bool, need: bool, c: Context,
                  missed: set<int>, left: set<int>, left': set<int>, swallowed: set<int>, b: int)
    requires lang.Consuming() && Sound(t, text) && IsFirstLine(t, text, start) && Underway(lang, t, u, text, start, ls, missed, left, swallowed)
    requires ls < |text| && LineEnd(text, ls) < |text| && Rounded(lang, u, v, text, ls, next, need, c, left, left') && (!next ==> w == v)
    requires CleanBefore(w, LineEnd(text, ls)) && (next ==> DirtyLine(w, text, LineEnd(text, ls)))
    requires forall o :: 0 <= o < LineEnd(text, ls) ==> ContextAt(w, o) == ContextAt(v, o)
    requires b <= LineEnd(text, ls) ==>
      DoubtEnds(t, v, text, left', b) && (b in left' ==> if b <= ls then b < ls && !CleanFrom(t, text, b) else !next)
    requires Doubt(t, text, missed, b) && First(swallowed + LostHere(u, text, LineEnd(text, ls), next), b) && CleanBefore(w, b)
    ensures DoubtEnds(t, w, text, left', b)
  {
    hide LineIs, EntryIs, MarkHolds, Stray, Blamed, Consistent, EndSettled, Beyond, Behind, Dirty, BothRoot, Doubt, DoubtEnds, LossEnds, First, LostHere, LineExit, CleanFrom, After;
    var le := LineEnd(text, ls);
    DoubtInText(t, text, missed, b);
    if next {
      if le < b { CleanLine(w, text, le, b); }
      if b <= ls {
        NarrowClean(w, ls, le);
        DoubtKept(t, v, w, text, missed, left', ls, b);
      } else {
        LinesMeetAt(text, ls, b);
        DoubtGone(t, v, w, text, left', b);
      }
    } else if le < b {
      SkippedDoubt(lang, t, u, v, text, ls, c, missed, left, left', swallowed, b);
    }
  }

  lemma DoubtGone(t: Segment, v: Segment, w: Segment, text: string, left: set<int>, b: int)
    requires DoubtEnds(t, v, text, left, b) && b !in left && ContextAt(w, b - 1) == ContextAt(v, b - 1)
    ensures DoubtEnds(t, w, text, left, b)
  {
  }

  /** Stopping after a round. */
  method StopHere(lang: Language, ghost t: Segment, ghost u: Segment, v: Segment, text: string, ghost start: nat, ls: nat, next: bool, need: bool,
                  ghost c: Context, hint: nat, ghost missed: set<int>, ghost left: set<int>, ghost left': set<int>, ghost swallowed: set<int>)
    returns (w: Segment)
    requires lang.Consuming() && Sound(t, text) && IsFirstLine(t, text, start) && Underway(lang, t, u, text, start, ls, missed, left, swallowed)
    requires ls < |text| && Rounded(lang, u, v, text, ls, next, need, c, left, left')
    ensures Updated(lang, t, w, text, missed, left', swallowed + LostHere(u, text, LineEnd(text, ls), next))
    ensures Sound(w, text) && (LineEnd(text, ls) == |text| ==> InvalidCount(w.children) == 0)
    ensures !need && LineEnd(text, ls) < |text| ==> w == v
    ensures CleanBefore(w, LineEnd(text, ls)) && Untouched(v, w, text, LineEnd(text, ls))
  {
    hide MarkHolds, Stray, Blamed, Consistent, EndSettled, Beyond, Behind, Dirty, BothRoot, Doubt, DoubtEnds, LossEnds, First, LostHere, LineExit, CleanFrom, DirtyLine, CleanBefore, Ledger, Updated, Decided, LineIs;
    var le := LineEnd(text, ls);
    if le == |text| {
      LastOnly(text, ls);
      if next {
        DirtyNextSettles(lang, v, text, |text|, left');
      }
      w := SettleEnd(lang, v, text, need, hint, c, left');
      EndUpdated(lang, t, u, v, w, text, start, ls, next, need, c, missed, left, left', swallowed);
      EndClean(w, text);
      NothingAfterEnd(v, w, text);
    } else {
      w := MarkNext(lang, v, text, le, next, need, hint, left');
      NextUpdated(lang, t, u, v, w, text, start, ls, next, need, c, missed, left, left', swallowed);
      BeyondIsUntouched(v, w, text, le, left');
    }
  }

  lemma NothingAfterEnd(v: Segment, w: Segment, text: string)
    ensures Untouched(v, w, text, |text|)
  {
  }

  lemma BeyondIsUntouched(v: Segment, w: Segment, text: string, le: nat, left: set<int>)
    requires forall b: nat :: le < b < |text| && IsLineStart(text, b) ==> Beyond(v, w, text, b, left, left)
    requires forall o :: le <= o < |text| ==> ContextAt(w, o) == ContextAt(v, o) || LostSimple(v, w, o)
    ensures Untouched(v, w, text, le)
  {
    hide Dirty, ContextAt, LostSimple;
    forall b: nat | le < b < |text| && IsLineStart(text, b) ensures SameAhead(v, w, text, b) {
      assert Beyond(v, w, text, b, left, left);
    }
  }

  lemma TextIsClean(u: Segment, text: string)
    requires CleanBefore(u, |text|) && IsLineStart(text, |text|)
    ensures AllClean(u, text)
  {
    forall a | 0 <= a < |text| && IsLineStart(text, a) ensures !DirtyLine(u, text, a) {
      CleanLine(u, text, a, |text|);
    }
  }

  // ----- the loop -----

  /** Where the line ends that is the `n`-th from `a` on. */
  function LinesAfter(text: string, a: nat, n: nat): (b: nat)
    requires a <= |text|
    ensures a <= b <= |text|
  {
    if n == 0 then a
    else
      var b := LinesAfter(text, a, n - 1);
      if b < |text| then LineEnd(text, b) else b
  }

  lemma {:induction false} MoreLines(text: string, a: nat, n: nat, m: nat)
    requires a <= |text| && n <= m
    ensures LinesAfter(text, a, n) <= LinesAfter(text, a, m)
    decreases m
  {
    if n < m { MoreLines(text, a, n, m - 1); }
  }

  lemma {:induction false} LinesStart(text: string, a: nat, n: nat)
    requires a <= |text| && IsLineStart(text, a) && LinesAfter(text, a, n) < |text|
    ensures IsLineStart(text, LinesAfter(text, a, n))
    decreases n
  {
    if n > 0 && LinesAfter(text, a, n - 1) < |text| { LinesStart(text, a, n - 1); }
  }

  /** One more line was analyzed. */
  lemma LineCounted(text: string, start: nat, n: nat, ls: nat)
    requires start <= |text| && IsLineStart(text, start) && ls < |text| && IsLineStart(text, ls) && LinesAfter(text, start, n) <= ls
    ensures LinesAfter(text, start, n + 1) <= LineEnd(text, ls)
  {
    var b := LinesAfter(text, start, n);
    LinesStart(text, start, n);
    if b < ls { LinesBefore(text, b, ls); }
  }

  /** The line at `a` is done, and it is not the last one. */
  predicate LineDone(u: Segment, text: string, a: nat) {
    a < |text| && IsLineStart(text, LineEnd(text, a)) && CleanBefore(u, LineEnd(text, a))
  }

  /** What a run of the loop gets done: everything up to `endOffset`, or as many lines
      as there was time for, but at least one. */
  predicate Progress(u: Segment, text: string, start: nat, endOffset: nat, budget: Option<nat>)
    requires start <= |text|
  {
    || CleanBefore(u, endOffset)
    || (budget.Some? && CleanBefore(u, LinesAfter(text, start, if budget.value == 0 then 1 else budget.value)))
  }

  lemma ProgressMade(u: Segment, text: string, start: nat, endOffset: nat, budget: Option<nat>, le: nat, lines: nat)
    requires start <= |text| && CleanBefore(u, le) && lines > 0 && LinesAfter(text, start, lines) <= le
    requires (budget.Some? && lines >= budget.value) || le >= endOffset
    ensures Progress(u, text, start, endOffset, budget)
  {
    if le >= endOffset {
      if Dirty(u.children, 0, endOffset) { DirtyWiden(u.children, 0, endOffset, 0, le); }
    } else {
      var n := if budget.value == 0 then 1 else budget.value;
      MoreLines(text, start, n, lines);
      var b := LinesAfter(text, start, n);
      if Dirty(u.children, 0, b) { DirtyWiden(u.children, 0, b, 0, le); }
    }
  }

  lemma AllProgress(u: Segment, text: string, start: nat, endOffset: nat, budget: Option<nat>)
    requires start <= |text| && endOffset <= |text| && CleanBefore(u, |text|)
    ensures Progress(u, text, start, endOffset, budget)
    ensures start < |text| && IsLineStart(text, |text|) ==> LineDone(u, text, start)
  {
    if Dirty(u.children, 0, endOffset) { DirtyWiden(u.children, 0, endOffset, 0, |text|); }
    if start < |text| && Dirty(u.children, 0, LineEnd(text, start)) { DirtyWiden(u.children, 0, LineEnd(text, start), 0, |text|); }
  }

  lemma UnderwayFacts(lang: Language, t: Segment, u: Segment, text: string, start: nat, ls: nat, missed: set<int>, left: set<int>, swallowed: set<int>)
    requires lang.Consuming() && Underway(lang, t, u, text, start, ls, missed, left, swallowed)
    ensures start <= ls <= |text| && IsLineStart(text, ls) && Sound(u, text) && CleanBefore(u, ls)
    ensures Consistent(lang, u, text, ls, left) && EndSettled(lang, u, text, ls, left)
  {
  }

  lemma UnderwayStart(lang: Language, t: Segment, text: string, start: nat, missed: set<int>)
    requires lang.Consuming() && start < |text| && IsLineStart(text, start) && DirtyLine(t, text, start)
    requires Sound(t, text) && Consistent(lang, t, text, -1, missed) && EndSettled(lang, t, text, -1, missed) && CleanBefore(t, start)
    ensures Underway(lang, t, t, text, start, start, missed, missed, {}) && LinesAfter(text, start, 0) == start
  {
    hide Consistent, EndSettled, MarkHolds, LineEnd;
    forall q | Stray(t, text, q, -1) ensures Blamed(t, text, -1, {}, q) {
      assert q <= q;
    }
    Weaken(lang, t, t, text, start, missed, {});
    forall b | Doubt(t, text, missed, b) && b <= start ensures DoubtEnds(t, t, text, missed, b) && b < start && !CleanFrom(t, text, b) {
      CleanLine(t, text, PreviousLine(text, b), start);
      DirtyWiden(t.children, start, Top(text, LineEnd(text, start)), b, |text| + 1);
    }
  }

  /** Nothing is left before the end of the text. */
  lemma LoopDone(lang: Language, t: Segment, u: Segment, text: string, start: nat, missed: set<int>, left: set<int>, swallowed: set<int>)
    requires lang.Consuming() && Sound(t, text) && IsFirstLine(t, text, start) && Underway(lang, t, u, text, start, |text|, missed, left, swallowed) && text != ""
    ensures Updated(lang, t, u, text, missed, left, swallowed) && AllClean(u, text)
  {
    hide MarkHolds, Blamed, Consistent, EndSettled, Beyond, Behind, Doubt, DoubtEnds, LossEnds, First, CleanFrom;
    TextIsClean(u, text);
    DirtyNextSettles(lang, u, text, |text|, left);
    EndUnpending(lang, u, text, left);
    forall a: nat | a <= |text| ensures CleanBefore(u, a) {
      NarrowClean(u, a, |text|);
    }
    forall a: nat | a <= |text| && IsLineStart(text, a) && CleanBefore(t, a) ensures Behind(t, u, text, a, missed, left) {
      BehindStays(t, u, u, text, start, |text|, missed, left, a);
    }
    forall q | Stray(u, text, q, -1) ensures Stray(u, text, q, |text|) {
    }
    forall b | Doubt(t, text, missed, b) && First(swallowed, b) ensures DoubtEnds(t, u, text, left, b) {
      DoubtInText(t, text, missed, b);
    }
    forall b | b in swallowed ensures LosesMark(t, u, text, b) {
      assert 0 < b < |text| && !DirtyLine(u, text, b);
    }
  }

  lemma EndUnpending(lang: Language, u: Segment, text: string, left: set<int>)
    requires EndSettled(lang, u, text, |text|, left)
    ensures EndSettled(lang, u, text, -1, left)
  {
  }

  /** The main loop of `update_syntax`, from the first line that is to be analyzed.  It stops
      after `budget` lines, if there is a time limit; the search hints are arbitrary. */
  method AnalyzeLines(lang: Language, t: Segment, text: string, start: nat, endOffset: nat, budget: Option<nat>, ghost missed: set<int>)
    returns (u: Segment, ghost left: set<int>, ghost swallowed: set<int>)
    requires lang.Consuming() && Sound(t, text) && Consistent(lang, t, text, -1, missed) && EndSettled(lang, t, text, -1, missed)
    requires start < |text| && IsFirstLine(t, text, start) && DirtyLine(t, text, start) && endOffset <= |text|
    ensures Updated(lang, t, u, text, missed, left, swallowed)
    ensures Progress(u, text, start, endOffset, budget)
    ensures InvalidCount(u.children) == 0 || LineDone(u, text, start)
    ensures budget.None? && endOffset == |text| ==> AllClean(u, text)
    ensures budget.Some? && budget.value <= 1 ==> Untouched(t, u, text, LineEnd(text, start))
  {
    hide Untouched, LineDone, Updated, Progress, Decided, Done, Underway, Rounded, TerminatorsOk, Sound, Consistent, EndSettled,
         AllClean, CleanBefore, DirtyLine, LinesAfter, IsFirstLine, LostHere;
    u, left, swallowed := t, missed, {};
    var ls, lines := start, 0;
    StartFacts(t, text, start);
    UnderwayStart(lang, t, text, start, missed);
    while ls < |text|
      invariant Underway(lang, t, u, text, start, ls, missed, left, swallowed) && LinesAfter(text, start, lines) <= ls
      invariant ls > start ==> LineEnd(text, start) <= ls
      invariant budget.Some? && budget.value <= 1 ==> ls == start && u == t && lines == 0
      decreases |text| - ls
    {
      UnderwayFacts(lang, t, u, text, start, ls, missed, left, swallowed);
      ghost var before, was, gone := u, left, swallowed;
      var hint: Path, childHint: nat := *, *;
      var next, need, invalid;
      ghost var c;
      u, next, need, invalid, c, left := Round(lang, u, text, ls, hint, childHint, left);
      IsRounded(lang, before, u, text, ls, next, need, c, was, left);
      LineCounted(text, start, lines, ls);
      lines := lines + 1;
      var le := LineEnd(text, ls);
      swallowed := swallowed + LostHere(before, text, le, next);
      if (budget.Some? && lines >= budget.value) || le >= endOffset || (invalid.None? && !next) {
        ghost var v := u;
        u := StopHere(lang, t, before, u, text, start, ls, next, need, c, childHint, missed, was, left, gone);
        RoundUntouched(lang, before, v, u, text, ls, next, need, c, was, left);
        Stopped(u, text, start, ls, endOffset, budget, lines);
        return;
      }
      GoOn(lang, t, before, u, text, start, ls, next, need, c, if next then le else invalid.value, missed, was, left, gone);
      ls := if next then le else LineStart(text, invalid.value);
    }
    UnderwayFacts(lang, t, u, text, start, ls, missed, left, swallowed);
    LoopDone(lang, t, u, text, start, missed, left, swallowed);
    AllProgress(u, text, start, endOffset, budget);
  }

  lemma StartFacts(t: Segment, text: string, start: nat)
    requires IsFirstLine(t, text, start)
    ensures IsLineStart(text, start) && CleanBefore(t, start)
  {
  }

  lemma IsRounded(lang: Language, t: Segment, v: Segment, text: string, ls: nat, next: bool, need: bool, c: Context, left: set<int>, left': set<int>)
    requires lang.Consuming() && ls < |text| && Sound(v, text) && CleanBefore(v, LineEnd(text, ls)) && Done(lang, t, v, text, ls, c)
    requires Consistent(lang, v, text, if next then LineEnd(text, ls) else -1, left')
    requires LineEnd(text, ls) < |text| ==> EndSettled(lang, v, text, if next then LineEnd(text, ls) else -1, left')
    requires Decided(t, v, text, ls, next, left, left')
    requires (need ==> next) && (next && !need && LineEnd(text, ls) < |text| ==> DirtyLine(v, text, LineEnd(text, ls)))
    requires LineEnd(text, ls) == |text| ==>
      InvalidCount(v.children) == 0 && next == need && (need <==> LineExit(lang, c, ls == 0, text[ls..]) != Root)
    ensures Rounded(lang, t, v, text, ls, next, need, c, left, left')
  {
  }

  /** The loop stops after a line. */
  lemma Stopped(u: Segment, text: string, start: nat, ls: nat, endOffset: nat, budget: Option<nat>, lines: nat)
    requires Sound(u, text) && start <= ls < |text| && IsLineStart(text, start) && IsLineStart(text, ls) && endOffset <= |text|
    requires CleanBefore(u, LineEnd(text, ls)) && lines > 0 && LinesAfter(text, start, lines) <= LineEnd(text, ls)
    requires (budget.Some? && lines >= budget.value) || LineEnd(text, ls) >= endOffset || InvalidCount(u.children) == 0
    requires LineEnd(text, ls) == |text| ==> InvalidCount(u.children) == 0
    ensures Progress(u, text, start, endOffset, budget)
    ensures InvalidCount(u.children) == 0 || LineDone(u, text, start)
    ensures budget.None? && endOffset == |text| ==> AllClean(u, text)
  {
    var le := LineEnd(text, ls);
    if InvalidCount(u.children) == 0 {
      EndClean(u, text);
      CountIsClean(u, text);
      AllProgress(u, text, start, endOffset, budget);
    } else {
      ProgressMade(u, text, start, endOffset, budget, le, lines);
      assert le < |text|;
    }
    if start < ls { LinesBefore(text, start, ls); }
    if Dirty(u.children, 0, LineEnd(text, start)) { DirtyWiden(u.children, 0, LineEnd(text, start), 0, le); }
  }
}
