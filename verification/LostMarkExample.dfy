/** A mark that is lost, in a run of the engine: an empty invalid segment at the start of a
    line is erased together with the line before it. */
module LostMarkExample {
  import opened Wrappers
  import opened Contexts
  import opened Language
  import opened LineAnalysis
  import opened Lines
  import opened SegmentTree
  import opened SegmentRemove
  import opened InvalidRegion
  import opened InvalidExtent
  import opened Labelling
  import opened Dirt
  import opened DirtMoves
  import opened Consistency
  import opened LineStep
  import opened EditStep
  import opened OpenEnd
  import opened TreeUpdate
  import opened Account
  import opened SyntaxLoop
  import opened UpdateSyntax
  import opened EmptyMarks
  import opened Interruption
  import opened Engine
  import opened Interleaving
  import opened EditRuns

  // ----- the language -----

  /** A comment between `<` and `>`, and a keyword, `k` at the beginning of a line. */
  function CommentOrKeyword(): Language {
    Language(
      [Definition(Container, false, false, false, false, true, true, false, []),
       Definition(Simple, false, false, false, false, false, false, false, [])],
      Definition(Container, false, false, false, false, false, false, false, [0, 1]),
      (p: Pattern, line: string, limit: nat, pos: nat) =>
        if pos < limit && pos < |line| &&
           ((p.StartOf? && p.definition == 0 && line[pos] == '<') || (p.EndOf? && p.definition == 0 && line[pos] == '>')
            || (p.MatchOf? && p.definition == 1 && pos == 0 && line[0] == 'k'))
        then Some(pos + 1) else None)
  }

  function Comment(): Context { Child(Root, DefinitionRef(0, Container), "") }

  function Keyword(): Context { Child(Root, DefinitionRef(1, Simple), "") }

  lemma LanguageFacts()
    ensures CommentOrKeyword().Consuming() && CommentOrKeyword().Has(Comment()) && CommentOrKeyword().Has(Keyword())
    ensures Stable(CommentOrKeyword(), Comment())
  {
  }

  /** In the toplevel state nothing happens at a character that is not `<`, nor `k` in front. */
  lemma QuietRoot(first: bool, line: string, pos: nat)
    requires pos <= |line| && (pos < |line| ==> line[pos] != '<' && (pos == 0 ==> line[pos] != 'k'))
    ensures CommentOrKeyword().StepAt(Root, first, line, pos) == None
  {
    var lang := CommentOrKeyword();
    assert [0, 1][1..] == [1] && [1][1..] == [];
    assert lang.ChildStep(Root, 0, line, pos) == None && lang.ChildStep(Root, 1, line, pos) == None;
    assert lang.ChildrenStep(Root, [], false, first, line, pos) == None;
    assert lang.ChildrenStep(Root, [1], false, first, line, pos) == None;
    assert lang.ChildrenStep(Root, [0, 1], false, first, line, pos) == None;
  }

  lemma {:induction false} QuietFrom(first: bool, line: string, pos: nat)
    requires pos <= |line| && forall i :: pos <= i < |line| ==> line[i] != '<' && (i == 0 ==> line[i] != 'k')
    ensures CommentOrKeyword().NextStep(Root, first, line, pos) == None
    decreases |line| - pos
  {
    QuietRoot(first, line, pos);
    if pos < |line| { QuietFrom(first, line, pos + 1); }
  }

  /** A line without either stays in the toplevel state. */
  lemma QuietLine(first: bool, line: string)
    requires line != "" && forall i :: 0 <= i < |line| ==> line[i] != '<' && (i == 0 ==> line[i] != 'k')
    ensures LineContexts(CommentOrKeyword(), Root, first, line) == Repeat(Root, |line|)
    ensures LineExit(CommentOrKeyword(), Root, first, line) == Root
  {
    QuietFrom(first, Text(line), 0);
  }

  lemma KeywordLine(first: bool)
    ensures LineContexts(CommentOrKeyword(), Root, first, "k\n")[0] == Keyword()
  {
    var lang := CommentOrKeyword();
    assert Text("k\n") == "k" && [0, 1][1..] == [1];
    assert lang.ChildStep(Root, 0, "k", 0) == None;
    assert lang.ChildStep(Root, 1, "k", 0) == Some(Step(0, 1, Some(Keyword()), Root));
    assert lang.ChildrenStep(Root, [1], false, first, "k", 0) == Some(Step(0, 1, Some(Keyword()), Root));
    assert lang.ChildrenStep(Root, [0, 1], false, first, "k", 0) == Some(Step(0, 1, Some(Keyword()), Root));
    assert lang.StepAt(Root, first, "k", 0) == Some(Step(0, 1, Some(Keyword()), Root));
    assert lang.NextStep(Root, first, "k", 0) == Some(Step(0, 1, Some(Keyword()), Root));
  }

  lemma QuietComment(first: bool, line: string, pos: nat)
    requires pos <= |line| && (pos < |line| ==> line[pos] != '>')
    ensures CommentOrKeyword().StepAt(Comment(), first, line, pos) == None
  {
    LanguageFacts();
    assert CommentOrKeyword().ChildrenStep(Comment(), [], false, first, line, pos) == None;
  }

  lemma OpensComment(first: bool)
    ensures CommentOrKeyword().NextStep(Root, first, "<q", 0) == Some(Step(0, 1, Some(Comment()), Comment()))
  {
    var lang := CommentOrKeyword();
    LanguageFacts();
    assert [0, 1][1..] == [1];
    assert lang.ChildStep(Root, 0, "<q", 0) == Some(Step(0, 1, Some(Comment()), Comment()));
    assert lang.ChildrenStep(Root, [0, 1], false, first, "<q", 0) == Some(Step(0, 1, Some(Comment()), Comment()));
    assert lang.StepAt(Root, first, "<q", 0) == Some(Step(0, 1, Some(Comment()), Comment()));
  }

  lemma StaysInComment(first: bool)
    ensures CommentOrKeyword().Has(Comment()) && CommentOrKeyword().NextStep(Comment(), first, "<q", 1) == None
  {
    LanguageFacts();
    QuietComment(first, "<q", 1);
    QuietComment(first, "<q", 2);
    assert CommentOrKeyword().NextStep(Comment(), first, "<q", 2) == None;
  }

  /** The line `<q` opens a comment. */
  lemma OpeningLine(first: bool)
    ensures LineContexts(CommentOrKeyword(), Root, first, "<q\n") == [Comment(), Comment(), Comment()]
    ensures LineExit(CommentOrKeyword(), Root, first, "<q\n") == Comment()
  {
    var lang := CommentOrKeyword();
    LanguageFacts();
    OpensComment(first);
    StaysInComment(first);
    assert Text("<q\n") == "<q";
    assert Analyze(lang, Comment(), first, "<q", 1) == (Repeat(Comment(), 1), Comment());
    assert Repeat(Root, 0) + Repeat(Comment(), 1) + Repeat(Comment(), 1) == [Comment(), Comment()];
    assert Analyze(lang, Root, first, "<q", 0) == ([Comment(), Comment()], Comment());
    assert [Comment(), Comment()] + Repeat(Comment(), 1) == [Comment(), Comment(), Comment()];
  }

  /** The line `>` closes it. */
  lemma ClosingLine(first: bool)
    ensures CommentOrKeyword().Has(Comment())
    ensures LineContexts(CommentOrKeyword(), Comment(), first, ">\n") == [Comment(), Root]
    ensures LineExit(CommentOrKeyword(), Comment(), first, ">\n") == Root
  {
    var lang := CommentOrKeyword();
    LanguageFacts();
    assert Text(">\n") == ">";
    assert lang.ChildrenStep(Comment(), [], true, first, ">", 0) == None;
    assert lang.StepAt(Comment(), first, ">", 0) == Some(Step(0, 1, None, Root));
    assert lang.NextStep(Comment(), first, ">", 0) == Some(Step(0, 1, None, Root));
    QuietFrom(first, ">", 1);
    assert Analyze(lang, Root, first, ">", 1) == (Repeat(Root, 0), Root);
    assert Repeat(Comment(), 0) + Repeat(Comment(), 1) + Repeat(Root, 0) == [Comment()];
    assert Analyze(lang, Comment(), first, ">", 0) == ([Comment()], Root);
    assert [Comment()] + Repeat(Root, 1) == [Comment(), Root];
  }

  // ----- the texts -----

  const FIRST := "q\n>\nxk\n"
  const SECOND := "<q\n>\nxk\n"
  const THIRD := "<q\n>\nk\n"

  lemma FirstEnds()
    ensures LineEnd(FIRST, 0) == 2 && LineEnd(FIRST, 2) == 4 && LineEnd(FIRST, 4) == 7
    ensures FIRST[0..2] == "q\n" && FIRST[2..4] == ">\n" && FIRST[4..7] == "xk\n"
  {
    assert LineEnd(FIRST, 1) == 2;
    assert LineEnd(FIRST, 3) == 4;
    assert LineEnd(FIRST, 6) == 7;
    assert LineEnd(FIRST, 5) == 7;
  }

  lemma SecondEnds()
    ensures LineEnd(SECOND, 0) == 3 && LineEnd(SECOND, 3) == 5 && LineEnd(SECOND, 5) == 8
    ensures SECOND[0..3] == "<q\n" && SECOND[3..5] == ">\n"
  {
    assert LineEnd(SECOND, 2) == 3;
    assert LineEnd(SECOND, 1) == 3;
    assert LineEnd(SECOND, 4) == 5;
    assert LineEnd(SECOND, 7) == 8;
    assert LineEnd(SECOND, 6) == 8;
  }

  lemma ThirdEnds()
    ensures LineEnd(THIRD, 0) == 3 && LineEnd(THIRD, 3) == 5 && LineEnd(THIRD, 5) == 7
    ensures THIRD[0..3] == "<q\n" && THIRD[3..5] == ">\n" && THIRD[5..7] == "k\n"
  {
    assert LineEnd(THIRD, 2) == 3;
    assert LineEnd(THIRD, 1) == 3;
    assert LineEnd(THIRD, 4) == 5;
    assert LineEnd(THIRD, 6) == 7;
  }

  lemma FirstScan(o: nat)
    requires o < 7
    ensures CommentOrKeyword().Consuming() && Scan(CommentOrKeyword(), FIRST, 0, Root)[o] == Root
  {
    hide LineContexts, LineExit, Scan;
    var lang := CommentOrKeyword();
    FirstEnds();
    LanguageFacts();
    QuietLine(true, "q\n");
    QuietLine(false, ">\n");
    QuietLine(false, "xk\n");
    ScanUnfolds(lang, FIRST, 0, Root, o);
    if o >= 2 { ScanUnfolds(lang, FIRST, 2, Root, o); }
    if o >= 4 { ScanUnfolds(lang, FIRST, 4, Root, o); }
  }

  lemma ThirdScan()
    ensures CommentOrKeyword().Consuming()
    ensures Scan(CommentOrKeyword(), THIRD, 0, Root)[4] == Root && Scan(CommentOrKeyword(), THIRD, 0, Root)[5] == Keyword()
  {
    hide LineContexts, LineExit, Scan;
    var lang := CommentOrKeyword();
    ThirdEnds();
    LanguageFacts();
    OpeningLine(true);
    ClosingLine(false);
    KeywordLine(false);
    ScanUnfolds(lang, THIRD, 0, Root, 4);
    ScanUnfolds(lang, THIRD, 3, Comment(), 4);
    ScanUnfolds(lang, THIRD, 0, Root, 5);
    ScanUnfolds(lang, THIRD, 3, Comment(), 5);
    ScanUnfolds(lang, THIRD, 5, Root, 5);
  }

  // ----- after the insertion -----

  ghost predicate AllRoot(t: Segment, from: int, to: int) {
    forall o :: from <= o < to ==> ContextAt(t, o) == Some(Root)
  }

  /** The `<` is to be analyzed, and nothing else. */
  lemma CharInserted(t: Segment, u: Segment)
    requires Edited(t, u, FIRST, SECOND, 0, 1, 1) && Placed(t, u, 0, 1, 1) && InvalidCount(t.children) == 0 && AllRoot(t, 0, 7) && Regular(t, FIRST)
    ensures Sound(u, SECOND) && EditMissed(t, u, FIRST, SECOND, 1, 1, {}) == {} && Regular(u, SECOND) && Held(u, SECOND)
    ensures ContextAt(u, 0) == None && AllRoot(u, 1, 8) && InvalidCount(u.children) > 0
    ensures forall x, y :: 1 <= x < y <= 9 ==> !Dirty(u.children, x, y)
  {
    hide Follows, Regular, Dirty, MarkAt, Solid, InvalidCount, Placed;
    assert EditMissed(t, u, FIRST, SECOND, 1, 1, {}) == {};
    EditRegular(t, u, FIRST, SECOND, 0, 1, 1);
    InsertedContexts(t, u);
    InsertedSound(t, u);
    PlacedOnce(t, u, Region(false, 0, 1, 1));
    EditIsHeld(u, SECOND);
    forall x, y | 1 <= x < y <= 9 ensures !Dirty(u.children, x, y) {
      OnlyFirst(u, x, y);
    }
    CountZeroNot(u);
  }

  lemma InsertedSound(t: Segment, u: Segment)
    requires Edited(t, u, FIRST, SECOND, 0, 1, 1)
    ensures Sound(u, SECOND)
  {
    hide Coalesced;
  }

  lemma InsertedContexts(t: Segment, u: Segment)
    requires SoundUpdate(t, u, 0, 1, 1) && t.endAt == 7 && AllRoot(t, 0, 7)
    ensures ContextAt(u, 0) == None && AllRoot(u, 1, 8)
  {
    hide MarkAt, HasInvalid;
    forall o | 1 <= o < 8 ensures ContextAt(u, o) == Some(Root) {
      assert KeptOrLost(ContextAt(u, o), t, o - 1, 0, 0);
    }
  }

  lemma OnlyFirst(u: Segment, x: int, y: int)
    requires Sound(u, SECOND) && Filled(u.children) && AllRoot(u, 1, 8) && 1 <= x < y
    ensures !Dirty(u.children, x, y)
  {
    if Dirty(u.children, x, y) { var o := InvalidChar(u, x, y); }
  }

  lemma InvalidChar(u: Segment, x: int, y: int) returns (o: int)
    requires ValidRoot(u) && Filled(u.children) && Dirty(u.children, x, y) && x < y
    ensures x <= o < y && 0 <= o < u.endAt && ContextAt(u, o) == None
  {
    o := FilledChar(u.children, 0, u.endAt, u.context, x, y, Own(u));
    ForestBounds(u.children, 0, u.endAt, u.context);
  }

  lemma CountZeroNot(u: Segment)
    requires ValidRoot(u) && ContextAt(u, 0) == None
    ensures InvalidCount(u.children) > 0
  {
    InvalidIsDirty(u.children, 0, Own(u), 0, 1);
    if InvalidCount(u.children) == 0 { CountZero(u.children, 0, 1); }
  }

  /** There is time for one line: the first is in the comment now, and the next is marked. */
  lemma FirstSlice(u: Segment, r: Segment, left: set<int>, swallowed: set<int>, from: nat)
    requires Sound(u, SECOND) && Regular(u, SECOND) && Held(u, SECOND) && ContextAt(u, 0) == None && AllRoot(u, 1, 8) && InvalidCount(u.children) > 0
    requires forall x, y :: 1 <= x < y <= 9 ==> !Dirty(u.children, x, y)
    requires CommentOrKeyword().Consuming() && Updated(CommentOrKeyword(), u, r, SECOND, {}, left, swallowed)
    requires Advanced(u, r, SECOND, from, None, Some(1))
    ensures left == {} && Regular(r, SECOND) && Sound(r, SECOND)
    ensures CleanBefore(r, 3) && DirtyLine(r, SECOND, 3) && !Dirty(r.children, 7, 8)
    ensures ContextAt(r, 0).Some? && ContextAt(r, 1).Some? && ContextAt(r, 2) == Some(Comment()) && AllRoot(r, 3, 8)
  {
    hide Consistent, EndSettled, Regular, Held, Stray, Doubt, DoubtEnds, LossEnds, LosesMark, Beyond, Behind, Blamed, Dirty, MarkAt, Progress, Untouched, SameAhead, LineContexts;
    SecondEnds();
    HeldOn(CommentOrKeyword(), u, r, SECOND, {}, left, swallowed);
    NothingBlamed(CommentOrKeyword(), u, r, SECOND, {}, left);
    assert left == {};
    StartsAtZero(u, from);
    FirstProgress(r);
    RestUntouched(u, r);
    FirstLineIs(r);
    SecondIsDirty(r);
  }

  lemma StartsAtZero(u: Segment, from: nat)
    requires ValidRoot(u) && ContextAt(u, 0) == None && IsFirstLine(u, SECOND, from)
    ensures from == 0
  {
    if from > 0 { InvalidIsDirty(u.children, 0, Own(u), 0, from); }
  }

  lemma FirstProgress(r: Segment)
    requires Progress(r, SECOND, 0, 8, Some(1))
    ensures CleanBefore(r, 3)
  {
    SecondEnds();
    assert LinesAfter(SECOND, 0, 0) == 0 && LinesAfter(SECOND, 0, 1) == 3;
    if CleanBefore(r, 8) { NarrowClean(r, 3, 8); }
  }

  lemma RestUntouched(u: Segment, r: Segment)
    requires Untouched(u, r, SECOND, 3) && AllRoot(u, 1, 8) && forall x, y :: 1 <= x < y <= 9 ==> !Dirty(u.children, x, y)
    ensures AllRoot(r, 3, 8) && !Dirty(r.children, 7, 8)
  {
    hide Dirty, ContextAt;
    assert IsLineStart(SECOND, 5) && SameAhead(u, r, SECOND, 5);
  }

  lemma FirstLineIs(r: Segment)
    requires CommentOrKeyword().Consuming() && Consistent(CommentOrKeyword(), r, SECOND, -1, {}) && CleanBefore(r, 3)
    ensures ContextAt(r, 0).Some? && ContextAt(r, 1).Some? && ContextAt(r, 2) == Some(Comment())
  {
    hide Consistent, LineContexts, LineExit;
    var lang := CommentOrKeyword();
    SecondEnds();
    OpeningLine(true);
    CleanLine(r, SECOND, 0, 3);
    LineFromEntry(lang, r, SECOND, 0, Root, {});
    assert LineIs(lang, r, SECOND, 0, Root);
    assert forall o :: 0 <= o < 3 ==> ContextAt(r, o) == Some([Comment(), Comment(), Comment()][o - 0]);
  }

  lemma SecondIsDirty(r: Segment)
    requires CommentOrKeyword().Consuming() && Consistent(CommentOrKeyword(), r, SECOND, -1, {}) && CleanBefore(r, 3)
    requires ContextAt(r, 2) == Some(Comment()) && AllRoot(r, 3, 8)
    ensures DirtyLine(r, SECOND, 3)
  {
    hide Consistent, LineContexts, LineExit, Dirty, MarkAt;
    var lang := CommentOrKeyword();
    SecondEnds();
    ClosingLine(false);
    CleanLine(r, SECOND, 0, 3);
    assert PreviousLine(SECOND, 3) == 0;
    if !DirtyLine(r, SECOND, 3) {
      LineFromEntry(lang, r, SECOND, 3, Comment(), {});
      SecondFrom(r);
    }
  }

  lemma SecondFrom(r: Segment)
    requires CommentOrKeyword().Consuming() && CommentOrKeyword().Has(Comment()) && AnalyzedFrom(CommentOrKeyword(), r, SECOND, 3, Comment())
    ensures ContextAt(r, 3) == Some(Comment())
  {
    hide LineContexts, LineExit, MarkAt;
    SecondEnds();
    ClosingLine(false);
    assert LineIs(CommentOrKeyword(), r, SECOND, 3, Comment());
    assert ContextAt(r, 3) == Some([Comment(), Root][3 - 3]);
  }

  // ----- after the deletion -----

  /** The `x` is deleted: the last line is to be analyzed, but only because of an empty invalid
      segment at its beginning. */
  lemma CharDeleted(r: Segment, u: Segment)
    requires Edited(r, u, SECOND, THIRD, 5, 5, -1) && Placed(r, u, 5, 5, -1) && Regular(r, SECOND)
    requires CleanBefore(r, 3) && DirtyLine(r, SECOND, 3) && !Dirty(r.children, 7, 8)
    requires ContextAt(r, 0).Some? && ContextAt(r, 1).Some? && ContextAt(r, 2) == Some(Comment()) && AllRoot(r, 3, 8)
    ensures Sound(u, THIRD) && EditMissed(r, u, SECOND, THIRD, 5, -1, {}) == {} && Regular(u, THIRD)
    ensures CleanBefore(u, 3) && DirtyLine(u, THIRD, 3) && DirtyLine(u, THIRD, 5) && !MarkHolds(u, THIRD, 5)
    ensures ContextAt(u, 2) == Some(Comment()) && AllRoot(u, 3, 7)
  {
    hide Follows, Regular, Dirty, MarkAt, Solid, Placed, Stray, SoundUpdate, DirtyLine, MarkHolds;
    DeletedSound(r, u);
    DeletedContexts(r, u);
    DeletedDirt(r, u);
    DeletedMisses(r, u);
    EditRegular(r, u, SECOND, THIRD, 5, 5, -1);
  }

  lemma DeletedSound(r: Segment, u: Segment)
    requires Edited(r, u, SECOND, THIRD, 5, 5, -1)
    ensures Sound(u, THIRD) && Sound(r, SECOND) && SoundUpdate(r, u, 5, 5, -1) && Follows(r, u, 5, 6, -1)
  {
    hide Coalesced;
  }

  lemma DeletedContexts(r: Segment, u: Segment)
    requires SoundUpdate(r, u, 5, 5, -1) && r.endAt == 8
    requires ContextAt(r, 0).Some? && ContextAt(r, 1).Some? && ContextAt(r, 2) == Some(Comment()) && AllRoot(r, 3, 8)
    ensures forall o :: 0 <= o < 7 ==> ContextAt(u, o).Some?
    ensures ContextAt(u, 2) == Some(Comment()) && AllRoot(u, 3, 7)
  {
    hide MarkAt, HasInvalid;
    assert ContextAt(r, 4) == Some(Root);
    forall o | 0 <= o < 5 ensures ContextAt(u, o) == ContextAt(r, o) {
      assert KeptOrLost(ContextAt(u, o), r, o, 5, 6);
    }
    forall o | 5 <= o < 7 ensures ContextAt(u, o) == Some(Root) {
      assert KeptOrLost(ContextAt(u, o), r, o + 1, 5, 6);
    }
  }

  lemma DeletedDirt(r: Segment, u: Segment)
    requires Sound(u, THIRD) && Sound(r, SECOND) && SoundUpdate(r, u, 5, 5, -1) && Follows(r, u, 5, 6, -1) && Placed(r, u, 5, 5, -1)
    requires CleanBefore(r, 3) && DirtyLine(r, SECOND, 3) && !Dirty(r.children, 7, 8)
    requires (forall o :: 0 <= o < 7 ==> ContextAt(u, o).Some?) && AllRoot(u, 3, 7)
    ensures CleanBefore(u, 3) && DirtyLine(u, THIRD, 3) && DirtyLine(u, THIRD, 5) && !MarkHolds(u, THIRD, 5)
  {
    hide Dirty, Solid, UpdatedBy, HasInvalid;
    SecondEnds();
    ThirdEnds();
    if Dirty(u.children, 0, 3) { UpdatedClean(r, u, 5, 5, -1, 0, 3); }
    assert Dirty(r.children, 3, 5);
    TouchInvalid(u.children, 0, u.endAt, u.context, 5, 7, Own(u));
    assert ContextAt(u, 4) == Some(Root);
    if Dirty(u.children, 6, 7) { UpdatedClean(r, u, 5, 5, -1, 6, 7); }
    PastSplit(u.children, 0, u.endAt, u.context, 5, 7, Own(u));
    assert ContextAt(u, 5) == Some(Root);
  }

  lemma DeletedMisses(r: Segment, u: Segment)
    requires DirtyLine(u, THIRD, 5)
    ensures EditMissed(r, u, SECOND, THIRD, 5, -1, {}) == {}
  {
    hide DirtyLine;
    forall a | 0 <= a < |THIRD| ensures !LeftMissed(r, u, SECOND, THIRD, 5, -1, {}, a) {
      assert a == 6 ==> THIRD[5] != '\n';
    }
  }

  /** The second line is analyzed with the empty mark erased after it; the states agree, so the
      last line is left as it is. */
  lemma MarkGone(u: Segment, r: Segment, left: set<int>, swallowed: set<int>)
    requires Sound(u, THIRD) && Regular(u, THIRD) && CleanBefore(u, 3) && DirtyLine(u, THIRD, 3) && DirtyLine(u, THIRD, 5) && !MarkHolds(u, THIRD, 5)
    requires AllRoot(u, 3, 7) && AllClean(r, THIRD)
    requires CommentOrKeyword().Consuming() && Updated(CommentOrKeyword(), u, r, THIRD, {}, left, swallowed)
    ensures 5 in left && !IsScan(CommentOrKeyword(), r, THIRD)
  {
    hide Consistent, EndSettled, Regular, Stray, DoubtEnds, LossEnds, Beyond, Behind, Blamed, Dirty, MarkAt, DirtyLine, MarkHolds, Scan, AllClean;
    var lang := CommentOrKeyword();
    ThirdEnds();
    FiveIsLeast(u, r, left, swallowed);
    FiveIsClean(r);
    BeforeIsRight(lang, u, r, THIRD, {}, left, swallowed, 5);
    ScanFrom(lang, r, THIRD, 0, Root, 4);
    ThirdScan();
    FiveKept(u, r, left, swallowed);
  }

  lemma FiveIsLeast(u: Segment, r: Segment, left: set<int>, swallowed: set<int>)
    requires Regular(u, THIRD) && CleanBefore(u, 3) && DirtyLine(u, THIRD, 3) && DirtyLine(u, THIRD, 5) && !MarkHolds(u, THIRD, 5)
    requires CommentOrKeyword().Consuming() && Updated(CommentOrKeyword(), u, r, THIRD, {}, left, swallowed)
    ensures Least(u, THIRD, {}, swallowed, 5) && Doubt(u, THIRD, {}, 5)
  {
    hide Consistent, EndSettled, Stray, DoubtEnds, LossEnds, Beyond, Behind, Blamed, Dirty, DirtyLine, MarkHolds;
    assert forall d :: d in swallowed ==> LosesMark(u, r, THIRD, d);
    forall d | d in swallowed ensures 5 <= d {
      ThirdStarts(d);
    }
    assert PreviousLine(THIRD, 5) == 3;
  }

  lemma ThirdStarts(d: int)
    ensures 0 < d < |THIRD| && IsLineStart(THIRD, d) ==> d == 3 || d == 5
  {
    if 0 < d < 5 && d != 3 { assert THIRD[d - 1] != '\n'; }
    if d == 6 { assert THIRD[5] != '\n'; }
  }

  lemma FiveIsClean(r: Segment)
    requires AllClean(r, THIRD)
    ensures CleanBefore(r, 5)
  {
    ThirdEnds();
    if Dirty(r.children, 0, 5) { DirtySplit(r.children, 0, 3, 5); }
    assert !DirtyLine(r, THIRD, 0) && !DirtyLine(r, THIRD, 3);
  }

  lemma FiveKept(u: Segment, r: Segment, left: set<int>, swallowed: set<int>)
    requires CommentOrKeyword().Consuming() && Updated(CommentOrKeyword(), u, r, THIRD, {}, left, swallowed)
    requires Least(u, THIRD, {}, swallowed, 5) && Doubt(u, THIRD, {}, 5) && CleanBefore(r, 5) && ContextAt(r, 4) == Some(Root) && AllRoot(u, 3, 7)
    ensures 5 in left && ContextAt(r, 5) == Some(Root)
  {
    hide Consistent, EndSettled, Stray, LossEnds, LosesMark, Beyond, Behind, Blamed, Dirty, MarkAt, MarkHolds, Doubt;
    assert DoubtEnds(u, r, THIRD, left, 5);
    assert ContextAt(u, 5) == Some(Root);
  }

  // ----- the run -----

  /** The buffer is analyzed; `<` is inserted at the front, and there is time to analyze one
      line; the `x` is deleted, and the rest analyzed.  The keyword in the last line is not
      found. */
  method MarkIsLost(slices: nat -> nat) returns (e: Engine)
    ensures fresh(e) && e.Valid() && e.lang == CommentOrKeyword() && e.text == THIRD
    ensures e.empty && AllClean(e.root, e.text) && 5 in e.missed && !IsScan(e.lang, e.root, e.text)
  {
    hide Consistent, EndSettled, Sound, Regular, IsScan, EndIsOpen, Updated, Advanced, Edited, Placed, EditMissed, AllClean, DirtyLine, MarkHolds, Coalesced, CleanBefore, ContextAt, Scan, Held, Dirty, InvalidCount;
    LanguageFacts();
    e := AnalyzeBuffer(CommentOrKeyword(), FIRST, 0, 0, [], slices);
    FirstIsRoot(e);
    ghost var t := e.root;
    assert Insert(FIRST, 0, "<") == SECOND;
    e.TextInserted(0, "<");
    ghost var u, stale, from, swallowed;
    u, stale, from, swallowed := e.UpdateSyntax(None, Some(1), 0, 0);
    CharInserted(t, u);
    FirstSlice(u, e.root, e.missed, swallowed, from);
    ghost var r := e.root;
    assert Delete(SECOND, 5, 1) == THIRD;
    e.TextDeleted(5, 1);
    u, stale, from, swallowed := e.UpdateSyntax(None, None, 0, 0);
    CharDeleted(r, u);
    MarkGone(u, e.root, e.missed, swallowed);
  }

  lemma FirstIsRoot(e: Engine)
    requires Known(e, Exact) && e.lang == CommentOrKeyword() && e.text == FIRST && CommentOrKeyword().Consuming()
    requires IsScan(e.lang, e.root, FIRST) <==> !EndIsOpen(e.lang, FIRST)
    ensures AllRoot(e.root, 0, 7) && e.missed == {}
  {
    hide Consistent, EndSettled, Sound, Regular, EndIsOpen, Scan, Coalesced;
    if EndIsOpen(e.lang, FIRST) { OpenUnterminated(e.lang, FIRST); }
    forall o | 0 <= o < 7 ensures ContextAt(e.root, o) == Some(Root) {
      FirstScan(o);
    }
  }
}
