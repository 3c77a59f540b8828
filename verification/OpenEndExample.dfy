/** A buffer whose last character loses its context although it was analyzed in one go. */
module OpenEndExample {
  import opened Wrappers
  import opened Contexts
  import opened Language
  import opened LineAnalysis
  import opened Lines
  import opened Consistency
  import opened OpenEnd
  import opened Engine
  import opened EditRuns

  /** `*` opens a comment that nothing closes; in it `T` is a note. */
  function Comments(): Language {
    Language(
      [Definition(Container, false, false, false, false, true, false, false, [1]),
       Definition(Simple, false, false, false, false, false, false, false, [])],
      Definition(Container, false, false, false, false, false, false, false, [0]),
      (p: Pattern, line: string, limit: nat, pos: nat) =>
        if pos < limit && pos < |line| &&
           ((p.StartOf? && p.definition == 0 && line[pos] == '*') || (p.MatchOf? && p.definition == 1 && line[pos] == 'T'))
        then Some(pos + 1) else None)
  }

  function Comment(): Context { Child(Root, DefinitionRef(0, Container), "") }

  function Note(): Context { Child(Comment(), DefinitionRef(1, Simple), "") }

  lemma FirstStep()
    ensures Comments().NextStep(Root, true, "*T", 0) == Some(Step(0, 1, Some(Comment()), Comment()))
  {
    var lang := Comments();
    assert lang.ChildStep(Root, 0, "*T", 0) == Some(Step(0, 1, Some(Comment()), Comment()));
    assert lang.ChildrenStep(Root, [0], false, true, "*T", 0) == Some(Step(0, 1, Some(Comment()), Comment()));
    assert lang.StepAt(Root, true, "*T", 0) == Some(Step(0, 1, Some(Comment()), Comment()));
  }

  lemma SecondStep()
    ensures Comments().NextStep(Comment(), true, "*T", 1) == Some(Step(1, 2, Some(Note()), Comment()))
  {
    var lang := Comments();
    assert lang.ChildStep(Comment(), 1, "*T", 1) == Some(Step(1, 2, Some(Note()), Comment()));
    assert lang.ChildrenStep(Comment(), [1], false, true, "*T", 1) == Some(Step(1, 2, Some(Note()), Comment()));
    assert lang.StepAt(Comment(), true, "*T", 1) == Some(Step(1, 2, Some(Note()), Comment()));
  }

  lemma NoMoreSteps()
    ensures Comments().NextStep(Comment(), true, "*T", 2) == None
  {
    var lang := Comments();
    assert lang.ChildStep(Comment(), 1, "*T", 2) == None;
    assert [1][1..] == [];
    assert lang.ChildrenStep(Comment(), [1], false, true, "*T", 2) == None;
    assert lang.StepAt(Comment(), true, "*T", 2) == None;
  }

  lemma Analysis()
    ensures Comments().Consuming() && Comments().Has(Comment()) && Comments().Has(Note())
    ensures Analyze(Comments(), Root, true, "*T", 0) == ([Comment(), Note()], Comment())
  {
    var lang, text := Comments(), "*T";
    FirstStep();
    SecondStep();
    NoMoreSteps();
    assert lang.Has(Comment()) && lang.Has(Note());
    assert Analyze(lang, Comment(), true, text, 2) == ([], Comment());
    assert Repeat(Comment(), 0) + Repeat(Note(), 1) + [] == [Note()];
    assert Repeat(Root, 0) + Repeat(Comment(), 1) + [Note()] == [Comment(), Note()];
    assert Analyze(lang, Comment(), true, text, 1) == ([Note()], Comment());
  }

  lemma WholeLine()
    ensures Comments().Consuming()
    ensures LineContexts(Comments(), Root, true, "*T") == [Comment(), Note()]
    ensures Comments().Has(Comment()) && LineExit(Comments(), Root, true, "*T") == Comment()
  {
    hide Analyze;
    Analysis();
    assert Text("*T") == "*T";
    assert AfterLineEnd(Comments(), Comment()) == Comment();
  }

  /** The buffer `*T` ends in the comment, with the note as its last character. */
  lemma EndsInNote()
    ensures Comments().Consuming() && EndIsOpen(Comments(), "*T")
  {
    hide LineContexts, LineExit;
    var lang, text := Comments(), "*T";
    WholeLine();
    assert LineEnd(text, 1) == 2 && LineEnd(text, 0) == 2 && text[0..2] == text;
    assert Scan(lang, text, 2, Comment()) == [];
    assert Scan(lang, text, 0, Root) == [Comment(), Note()];
    assert ScanEnd(lang, text, 0, Root) == Comment();
  }

  /** So that buffer, opened and analyzed in one go, is not the scan. */
  method EndIsLost(slices: nat -> nat) returns (e: Engine)
    ensures fresh(e) && e.Valid() && e.AllAnalyzed() && e.lang == Comments() && e.text == "*T"
    ensures !IsScan(e.lang, e.root, e.text)
  {
    hide EndIsOpen, IsScan;
    EndsInNote();
    e := AnalyzeBuffer(Comments(), "*T", 0, 0, [], slices);
  }
}
