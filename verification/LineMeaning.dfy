/** What the analysis of a line means: the steps that happen from the state at its
    beginning on, each where the one before has left off, and the end of the line. */
module LineMeaning {
  import opened Wrappers
  import opened Contexts
  import opened Language
  import opened LineAnalysis
  import opened Transitions

  /** The labels from `pos` on begin with those that the step gives: the state up to where
      it happens, then the child, if there is one. */
  predicate BelongTo(labels: seq<Context>, c: Context, s: Step, pos: nat)
    requires pos <= s.at <= s.to <= pos + |labels|
  {
    forall k :: 0 <= k < s.to - pos ==> labels[k] == if pos + k < s.at then c else s.child.GetOr(c)
  }

  /** From state `c` at `pos` on exactly `steps` happen up to the end of the text.  They
      give its characters the contexts `labels` and lead to state `end`. */
  ghost predicate Follows(lang: Language, c: Context, first: bool, text: string, pos: nat, steps: seq<Step>,
                          labels: seq<Context>, end: Context)
    requires lang.Consuming()
    decreases |steps|
  {
    && lang.Has(c) && |labels| == |text| - pos
    && if steps == [] then
         IsNext(lang, c, first, text, pos, None) && end == c && forall k :: 0 <= k < |labels| ==> labels[k] == c
       else
         var s := steps[0];
         && IsNext(lang, c, first, text, pos, Some(s)) && pos <= s.at <= s.to <= |text|
         && BelongTo(labels, c, s, pos)
         && Follows(lang, s.next, first, text, s.to, steps[1..], labels[s.to - pos..], end)
  }

  /** `text` is the line without its terminator. */
  predicate IsText(text: string, line: string) {
    line == text + "\n" || (line == text && (line != "" ==> line[|line| - 1] != '\n'))
  }

  /** Analyzed from state `c` the characters of the line have the contexts `labels`, and
      the state after the line is `exit`, which its terminator belongs to. */
  ghost predicate LineMeans(lang: Language, c: Context, first: bool, line: string, labels: seq<Context>, exit: Context)
    requires lang.Consuming()
  {
    |labels| == |line| &&
    exists text, steps, end ::
      && IsText(text, line) && Follows(lang, c, first, text, 0, steps, labels[..|text|], end)
      && PassesLineEnd(lang, end, exit)
      && forall k :: |text| <= k < |line| ==> labels[k] == exit
  }

  lemma {:induction false} AnalyzeFollows(lang: Language, c: Context, first: bool, text: string, pos: nat)
    returns (steps: seq<Step>)
    requires lang.Has(c) && c.IsContainer() && pos <= |text| && lang.Consuming()
    ensures Follows(lang, c, first, text, pos, steps, Analyze(lang, c, first, text, pos).0, Analyze(lang, c, first, text, pos).1)
    decreases |text| - pos, c.Depth()
  {
    hide IsNext, Language.NextStep, Language.Consuming;
    NextStepMeans(lang, c, first, text, pos);
    steps := [];
    if lang.NextStep(c, first, text, pos).Some? {
      var s := lang.NextStep(c, first, text, pos).value;
      steps := AnalyzeFollows(lang, s.next, first, text, s.to);
      StepFollows(lang, c, first, text, pos, s, steps);
      steps := [s] + steps;
    }
  }

  lemma StepFollows(lang: Language, c: Context, first: bool, text: string, pos: nat, s: Step, rest: seq<Step>)
    requires lang.Has(c) && c.IsContainer() && pos <= |text| && lang.Consuming()
    requires lang.NextStep(c, first, text, pos) == Some(s) && IsNext(lang, c, first, text, pos, Some(s))
    requires Follows(lang, s.next, first, text, s.to, rest,
                     Analyze(lang, s.next, first, text, s.to).0, Analyze(lang, s.next, first, text, s.to).1)
    ensures Follows(lang, c, first, text, pos, [s] + rest,
                    Analyze(lang, c, first, text, pos).0, Analyze(lang, c, first, text, pos).1)
  {
    hide IsNext, Language.NextStep, Language.Consuming, Language.Has, BelongTo, Repeat;
    assert ([s] + rest)[1..] == rest;
    StepLabels(c, s, pos, Analyze(lang, s.next, first, text, s.to).0);
  }

  lemma StepLabels(c: Context, s: Step, pos: nat, after: seq<Context>)
    requires pos <= s.at <= s.to
    ensures var labels := Repeat(c, s.at - pos) + Repeat(s.child.GetOr(c), s.to - s.at) + after;
      |labels| == s.to - pos + |after| && BelongTo(labels, c, s, pos) && labels[s.to - pos..] == after
  {
  }

  lemma SameLabels(labels: seq<Context>, labels': seq<Context>, c: Context, s: Step, pos: nat)
    requires pos <= s.at <= s.to <= pos + |labels| && |labels| == |labels'|
    requires BelongTo(labels, c, s, pos) && BelongTo(labels', c, s, pos)
    requires labels[s.to - pos..] == labels'[s.to - pos..]
    ensures labels == labels'
  {
    assert labels == labels[..s.to - pos] + labels[s.to - pos..];
    assert labels' == labels'[..s.to - pos] + labels'[s.to - pos..];
  }

  lemma {:induction false} FollowsOnce(lang: Language, c: Context, first: bool, text: string, pos: nat, steps: seq<Step>,
                                       labels: seq<Context>, end: Context, steps': seq<Step>, labels': seq<Context>, end': Context)
    requires lang.Consuming()
    requires Follows(lang, c, first, text, pos, steps, labels, end) && Follows(lang, c, first, text, pos, steps', labels', end')
    ensures labels == labels' && end == end'
    decreases |steps|
  {
    hide IsNext, BelongTo, Language.Consuming, Language.Has;
    var r := if steps == [] then None else Some(steps[0]);
    var r' := if steps' == [] then None else Some(steps'[0]);
    NextOnce(lang, c, first, text, pos, r, r');
    if steps != [] {
      var s := steps[0];
      FollowsOnce(lang, s.next, first, text, s.to, steps[1..], labels[s.to - pos..], end, steps'[1..], labels'[s.to - pos..], end');
      SameLabels(labels, labels', c, s, pos);
    }
  }

  lemma LineFollows(lang: Language, c: Context, first: bool, line: string)
    requires lang.Has(c) && c.IsContainer() && lang.Consuming()
    ensures LineMeans(lang, c, first, line, LineContexts(lang, c, first, line), LineExit(lang, c, first, line))
  {
    hide Follows, PassesLineEnd, Analyze, AfterLineEnd;
    var text := Text(line);
    var steps := AnalyzeFollows(lang, c, first, text, 0);
    var end := Analyze(lang, c, first, text, 0).1;
    LineEndStable(lang, end);
    assert LineContexts(lang, c, first, line)[..|text|] == Analyze(lang, c, first, text, 0).0;
    assert IsText(text, line);
  }

  /** The contexts of a line and the state after it are the only ones that the steps give
      from the state at its beginning. */
  lemma LineIsMeant(lang: Language, c: Context, first: bool, line: string, labels: seq<Context>, exit: Context)
    requires lang.Has(c) && c.IsContainer() && lang.Consuming()
    ensures LineMeans(lang, c, first, line, labels, exit) <==>
            labels == LineContexts(lang, c, first, line) && exit == LineExit(lang, c, first, line)
  {
    hide Follows, PassesLineEnd;
    LineFollows(lang, c, first, line);
    if LineMeans(lang, c, first, line, labels, exit) {
      MeansOnce(lang, c, first, line, labels, exit, LineContexts(lang, c, first, line), LineExit(lang, c, first, line));
    }
  }

  lemma MeansOnce(lang: Language, c: Context, first: bool, line: string, labels: seq<Context>, exit: Context,
                  labels': seq<Context>, exit': Context)
    requires lang.Consuming()
    requires LineMeans(lang, c, first, line, labels, exit) && LineMeans(lang, c, first, line, labels', exit')
    ensures labels == labels' && exit == exit'
  {
    hide Follows, PassesLineEnd;
    var text, steps, end :|
      && IsText(text, line) && Follows(lang, c, first, text, 0, steps, labels[..|text|], end)
      && PassesLineEnd(lang, end, exit)
      && forall k :: |text| <= k < |line| ==> labels[k] == exit;
    var text', steps', end' :|
      && IsText(text', line) && Follows(lang, c, first, text', 0, steps', labels'[..|text'|], end')
      && PassesLineEnd(lang, end', exit')
      && forall k :: |text'| <= k < |line| ==> labels'[k] == exit';
    TextOnce(text, text', line);
    FollowsOnce(lang, c, first, text, 0, steps, labels[..|text|], end, steps', labels'[..|text|], end');
    LineEndOnce(lang, end, exit, exit');
    assert labels == labels[..|text|] + labels[|text|..];
    assert labels' == labels'[..|text|] + labels'[|text|..];
  }

  lemma TextOnce(text: string, text': string, line: string)
    requires IsText(text, line) && IsText(text', line)
    ensures text == text'
  {
    assert line == text + "\n" ==> line[|line| - 1] == '\n' && line[..|line| - 1] == text;
    assert line == text' + "\n" ==> line[|line| - 1] == '\n' && line[..|line| - 1] == text';
  }
}
