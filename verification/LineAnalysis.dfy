/** The analysis of one line as a function of the state at its beginning
    (`analyze_line`, `check_line_end`). */
module LineAnalysis {
  import opened Wrappers
  import opened Contexts
  import opened Language
  import opened Sequences
  import opened Transitions

  /** `check_line_end`: the topmost context that the end of the line ends. */
  function Terminating(lang: Language, c: Context): (r: Option<Context>)
    requires lang.Has(c)
    ensures r.Some? ==> r.value.Child? && lang.Has(r.value) && IsAncestor(r.value, c)
  {
    if lang.EndsAtLineEnd(c) then
      var up := Terminating(lang, c.parent);
      if up.Some? then up else Some(c)
    else if !lang.AncestorCanEnd(c) then None
    else Terminating(lang, c.parent)
  }

  /** The state of the next line when `c` is the state at the end of this one. */
  function AfterLineEnd(lang: Language, c: Context): (r: Context)
    requires lang.Has(c) && c.IsContainer()
    ensures lang.Has(r) && r.IsContainer()
  {
    if lang.AncestorCanEnd(c) || lang.EndsAtLineEnd(c) then
      var t := Terminating(lang, c);
      if t.Some? then t.value.parent else c
    else c
  }

  function Repeat(c: Context, n: nat): (r: seq<Context>)
    ensures |r| == n && forall i :: 0 <= i < n ==> r[i] == c
  {
    seq(n, _ => c)
  }

  /** The contexts of the characters of `line` (without its terminator) from
      `pos` on, in state `c` there, and the state at the end. */
  function Analyze(lang: Language, c: Context, first: bool, line: string, pos: nat): (r: (seq<Context>, Context))
    requires lang.Has(c) && c.IsContainer() && pos <= |line| && lang.Consuming()
    ensures |r.0| == |line| - pos && lang.Has(r.1) && r.1.IsContainer()
    ensures forall i :: 0 <= i < |r.0| ==> lang.Has(r.0[i])
    decreases |line| - pos, c.Depth()
  {
    match lang.NextStep(c, first, line, pos)
    case None => (Repeat(c, |line| - pos), c)
    case Some(s) =>
      var rest := Analyze(lang, s.next, first, line, s.to);
      (Repeat(c, s.at - pos) + Repeat(s.child.GetOr(c), s.to - s.at) + rest.0, rest.1)
  }

  /** The analysis from state `c` at `from` has reached state `cur` at `pos`, with
      contexts `done` for the characters in between. */
  ghost predicate Reached(lang: Language, c: Context, first: bool, line: string, done: seq<Context>, cur: Context, pos: nat)
    requires lang.Has(c) && c.IsContainer() && lang.Consuming()
  {
    && pos <= |line| && |done| == pos && lang.Has(cur) && cur.IsContainer()
    && Analyze(lang, c, first, line, 0) ==
       (done + Analyze(lang, cur, first, line, pos).0, Analyze(lang, cur, first, line, pos).1)
  }

  function StepContexts(c: Context, s: Step, pos: nat): (r: seq<Context>)
    requires pos <= s.at <= s.to
    ensures |r| == s.to - pos
  {
    Repeat(c, s.at - pos) + Repeat(s.child.GetOr(c), s.to - s.at)
  }

  lemma ReachedStart(lang: Language, c: Context, first: bool, line: string)
    requires lang.Has(c) && c.IsContainer() && lang.Consuming()
    ensures Reached(lang, c, first, line, [], c, 0)
  {
    assert [] + Analyze(lang, c, first, line, 0).0 == Analyze(lang, c, first, line, 0).0;
  }

  lemma ReachedStep(lang: Language, c: Context, first: bool, line: string, done: seq<Context>, cur: Context, pos: nat)
    requires lang.Has(c) && c.IsContainer() && lang.Consuming()
    requires Reached(lang, c, first, line, done, cur, pos) && lang.NextStep(cur, first, line, pos).Some?
    ensures var s := lang.NextStep(cur, first, line, pos).value;
      Reached(lang, c, first, line, done + StepContexts(cur, s, pos), s.next, s.to)
  {
    var s := lang.NextStep(cur, first, line, pos).value;
    var rest := Analyze(lang, s.next, first, line, s.to);
    assert Analyze(lang, cur, first, line, pos) == (StepContexts(cur, s, pos) + rest.0, rest.1);
    Regroup(done, StepContexts(cur, s, pos), rest.0);
  }

  /** The contexts of a whole line, terminator included, and the state after it. */
  function LineContexts(lang: Language, c: Context, first: bool, line: string): (r: seq<Context>)
    requires lang.Has(c) && c.IsContainer() && lang.Consuming()
    ensures |r| == |line| && forall i :: 0 <= i < |r| ==> lang.Has(r[i])
  {
    var (labels, end) := Analyze(lang, c, first, Text(line), 0);
    labels + Repeat(AfterLineEnd(lang, end), |line| - |Text(line)|)
  }

  function LineExit(lang: Language, c: Context, first: bool, line: string): (r: Context)
    requires lang.Has(c) && c.IsContainer() && lang.Consuming()
    ensures lang.Has(r) && r.IsContainer()
  {
    AfterLineEnd(lang, Analyze(lang, c, first, Text(line), 0).1)
  }

  /** The line without its terminator. */
  function Text(line: string): (r: string)
    ensures |r| <= |line| <= |r| + 1 && r <= line
  {
    if line != "" && line[|line| - 1] == '\n' then line[..|line| - 1] else line
  }

  // ----- states between lines -----

  /** A state that the end of a line does not change. */
  predicate Stable(lang: Language, c: Context)
    requires lang.Has(c)
  {
    c.IsContainer() && AfterLineEnd(lang, c) == c
  }

  /** Above the topmost terminated context nothing more ends. */
  lemma {:induction false} TopmostTerminating(lang: Language, c: Context)
    requires lang.Has(c) && Terminating(lang, c).Some?
    ensures Terminating(lang, Terminating(lang, c).value.parent).None?
  {
    if lang.EndsAtLineEnd(c) {
      if Terminating(lang, c.parent).Some? { TopmostTerminating(lang, c.parent); }
    } else {
      TopmostTerminating(lang, c.parent);
    }
  }

  lemma {:induction false} TerminatingMeans(lang: Language, c: Context)
    requires lang.Has(c)
    ensures match Terminating(lang, c)
      case Some(t) => LineEnds(lang, t, c) && forall y :: LineEnds(lang, y, c) ==> IsAncestor(t, y)
      case None => forall x :: !LineEnds(lang, x, c)
  {
    CanEndMeans(lang, c);
    if c.Child? {
      hide LineEnds;
      TerminatingMeans(lang, c.parent);
      forall x { LineEndsParent(lang, c, x); }
    }
  }

  /** The end of the line leads where it should, and a second one changes nothing. */
  lemma LineEndStable(lang: Language, c: Context)
    requires lang.Has(c) && c.IsContainer()
    ensures PassesLineEnd(lang, c, AfterLineEnd(lang, c))
    ensures Stable(lang, AfterLineEnd(lang, c))
  {
    TerminatingMeans(lang, c);
    if Terminating(lang, c).Some? { TopmostTerminating(lang, c); }
  }

  // ----- resuming at the toplevel -----

  /** A line whose first character is in the toplevel context was, from its first
      character on, analyzed in the toplevel state, whatever the state before. */
  lemma {:induction false} AnalyzeFromRoot(lang: Language, c: Context, first: bool, line: string)
    requires lang.Has(c) && c.IsContainer() && lang.Consuming() && line != ""
    requires Analyze(lang, c, first, line, 0).0[0] == Root
    ensures Analyze(lang, c, first, line, 0) == Analyze(lang, Root, first, line, 0)
    decreases c.Depth()
  {
    var s := lang.NextStep(c, first, line, 0);
    if s.Some? && s.value.at == 0 && s.value.to == 0 {
      var rest := Analyze(lang, s.value.next, first, line, 0);
      assert Analyze(lang, c, first, line, 0).0 == Repeat(c, 0) + Repeat(c, 0) + rest.0 == rest.0;
      AnalyzeFromRoot(lang, s.value.next, first, line);
    }
  }

  lemma LineFromRoot(lang: Language, c: Context, first: bool, line: string)
    requires lang.Has(c) && lang.Consuming() && line != "" && Stable(lang, c)
    requires LineContexts(lang, c, first, line)[0] == Root
    ensures LineContexts(lang, c, first, line) == LineContexts(lang, Root, first, line)
  {
    if Text(line) != "" {
      AnalyzeFromRoot(lang, c, first, Text(line));
    } else {
      NothingOnEmptyLine(lang, c, first);
    }
  }

  lemma NothingOnEmptyLine(lang: Language, c: Context, first: bool)
    requires lang.Has(c) && c.IsContainer() && lang.Consuming()
    ensures Analyze(lang, c, first, "", 0) == ([], c)
  {
    assert lang.StepAt(c, first, "", 0).None?;
  }
}
