/** Two edits in one batch after which the incremental analysis misses a line. */
module BatchExample {
  import opened Wrappers
  import opened Contexts
  import opened Language
  import opened LineAnalysis
  import opened Lines
  import opened InvalidRegion
  import opened Consistency
  import opened OpenEnd
  import opened Engine
  import opened EditRuns

  /** A language with one simple context: a `k` at the beginning of a line. */
  function LineKeyword(): Language {
    Language(
      [Definition(Simple, false, false, false, false, false, false, false, [])],
      Definition(Container, false, false, false, false, false, false, false, [0]),
      (p: Pattern, line: string, limit: nat, pos: nat) =>
        if p.MatchOf? && pos == 0 && 0 < limit && line != "" && line[0] == 'k' then Some(1) else None)
  }

  function Keyword(): Context { Child(Root, DefinitionRef(0, Simple), "") }

  /** Nothing happens in a line that begins with something else. */
  lemma {:induction false} NoStep(first: bool, line: string, pos: nat)
    requires pos <= |line| && (line == "" || line[0] != 'k' || pos > 0)
    ensures LineKeyword().NextStep(Root, first, line, pos) == None
    decreases |line| - pos
  {
    var lang := LineKeyword();
    assert lang.ChildrenStep(Root, [0], false, first, line, pos) == None by {
      assert lang.ChildStep(Root, 0, line, pos) == None;
      assert lang.ChildrenStep(Root, [0][1..], false, first, line, pos) == None;
    }
    if pos < |line| { NoStep(first, line, pos + 1); }
  }

  lemma PlainLine(first: bool, line: string)
    requires line != "" && line[0] != 'k'
    ensures LineContexts(LineKeyword(), Root, first, line) == Repeat(Root, |line|)
    ensures LineExit(LineKeyword(), Root, first, line) == Root
  {
    NoStep(first, Text(line), 0);
  }

  lemma KeywordLine(first: bool)
    ensures LineContexts(LineKeyword(), Root, first, "k\n")[0] == Keyword()
  {
    var lang := LineKeyword();
    assert Text("k\n") == "k";
    assert lang.ChildStep(Root, 0, "k", 0) == Some(Step(0, 1, Some(Keyword()), Root));
    assert lang.ChildrenStep(Root, [0], false, first, "k", 0) == Some(Step(0, 1, Some(Keyword()), Root));
    assert lang.StepAt(Root, first, "k", 0) == Some(Step(0, 1, Some(Keyword()), Root));
    assert lang.NextStep(Root, first, "k", 0) == Some(Step(0, 1, Some(Keyword()), Root));
  }

  const OLD := "q\nxk\n"
  const NEW := "aq\nk\n"

  lemma Ends()
    ensures LineEnd(NEW, 0) == 3 && LineEnd(NEW, 3) == 5 && LineEnd(OLD, 0) == 2 && LineEnd(OLD, 2) == 5
    ensures NEW[0..3] == "aq\n" && NEW[3..5] == "k\n" && OLD[0..2] == "q\n" && OLD[2..5] == "xk\n"
  {
    assert LineEnd(NEW, 2) == 3;
    assert LineEnd(NEW, 1) == 3;
    assert LineEnd(NEW, 4) == 5;
    assert LineEnd(OLD, 1) == 2;
    assert LineEnd(OLD, 4) == 5;
    assert LineEnd(OLD, 3) == 5;
  }

  lemma Scans()
    ensures LineKeyword().Consuming()
    ensures Scan(LineKeyword(), NEW, 0, Root)[2] == Root && Scan(LineKeyword(), NEW, 0, Root)[3] == Keyword()
    ensures Scan(LineKeyword(), OLD, 0, Root)[3] == Root
  {
    hide LineContexts, LineExit, Scan;
    var lang := LineKeyword();
    Ends();
    PlainLine(true, "aq\n");
    KeywordLine(false);
    ScanUnfolds(lang, NEW, 0, Root, 2);
    ScanUnfolds(lang, NEW, 0, Root, 3);
    ScanUnfolds(lang, NEW, 3, Root, 3);
    PlainLine(true, "q\n");
    PlainLine(false, "xk\n");
    ScanUnfolds(lang, OLD, 0, Root, 3);
    ScanUnfolds(lang, OLD, 2, Root, 3);
  }

  /** An `a` is inserted at the front, then the `x` of the second line deleted. */
  function Edits(): seq<Edit> {
    [Insertion(0, "a"), Deletion(3, 1)]
  }

  /** The edits coalesce to the region [0, 3) with no change of length, which ends where
      the second line begins now. */
  lemma EditsCoalesce()
    ensures AllPossible(OLD, Edits()) && ApplyAll(OLD, Edits()) == NEW && Touched(OLD, Edits()) == Region(false, 0, 3, 0)
  {
    var middle, rest := "aq\nxk\n", [Deletion(3, 1)];
    assert Apply(OLD, Edits()[0]) == middle;
    assert Edits()[1..] == rest && rest[1..] == [];
    assert Apply(middle, rest[0]) == NEW by { assert middle[4..] == "k\n"; }
    var r := Region(true, 0, 0, 0).After(middle, Edits()[0]);
    assert r == Region(false, 0, 1, 1);
    var r' := r.After(NEW, rest[0]);
    assert r' == Region(false, 0, 3, 0);
    assert r'.AfterAll(NEW, []) == r';
    assert r.AfterAll(middle, rest) == r';
    assert ApplyAll(NEW, []) == NEW;
    assert ApplyAll(middle, rest) == NEW;
  }

  lemma ConditionHolds()
    ensures LineKeyword().Consuming() && RegionMissed(LineKeyword(), OLD, NEW, 0, 3, 0)
  {
    hide LineContexts, LineExit, Scan;
    Ends();
    Scans();
    KeywordLine(false);
    assert Scan(LineKeyword(), OLD, 0, Root)[3..5][0] == Root;
  }

  lemma BatchIsWrong()
    ensures LineKeyword().Consuming() && Next(Exact, LineKeyword(), OLD, NEW, Region(false, 0, 3, 0)).WrongAt?
  {
    hide EndIsOpen, RegionMissed;
    ConditionHolds();
    Ends();
    if EndIsOpen(LineKeyword(), OLD) { OpenUnterminated(LineKeyword(), OLD); }
    assert 3 in TextMissed(OLD, NEW, Region(false, 0, 3, 0), {});
  }

  /** When the first line is analyzed the states agree, so nothing is left to do: but the
      second line, which begins with the keyword now, was never looked at. */
  method BatchMissesLine(slices: nat -> nat) returns (e: Engine)
    ensures fresh(e) && e.Valid() && e.AllAnalyzed() && e.lang == LineKeyword() && e.text == NEW
    ensures !IsScan(e.lang, e.root, e.text)
  {
    hide EndIsOpen, RegionMissed, IsScan, Scan, Touched, ApplyAll, AllPossible, Next;
    EditsCoalesce();
    ConditionHolds();
    BatchIsWrong();
    e := AnalyzeBuffer(LineKeyword(), OLD, 0, 0, [], slices);
    ghost var v := EditsAndUpdate(e, Edits(), 0, 0, [], slices, Exact);
  }
}
