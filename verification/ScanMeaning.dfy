/** What the scan means: line after line the analysis, each line beginning in the state in
    which the one before has ended. */
module ScanMeaning {
  import opened Contexts
  import opened Language
  import opened LineAnalysis
  import opened LineMeaning
  import opened Lines

  /** [a, b) is a line of the text, its terminator included. */
  predicate IsLine(text: string, a: nat, b: nat) {
    && a < b <= |text| && (a == 0 || text[a - 1] == '\n') && (b == |text| || text[b - 1] == '\n')
    && forall i :: a <= i < b - 1 ==> text[i] != '\n'
  }

  /** Of the lines from `a` on each has the labels that its analysis gives it from its
      state in `states`, and leads to the state of the next. */
  ghost predicate LinesMean(lang: Language, text: string, labels: seq<Context>, states: seq<Context>, a: nat)
    requires lang.Consuming() && |labels| == |text| && |states| == |text| + 1
  {
    forall i: nat, b: nat :: a <= i && IsLine(text, i, b) ==> LineMeans(lang, states[i], i == 0, text[i..b], labels[i..b], states[b])
  }

  /** The first line begins in the toplevel state. */
  ghost predicate TextMeans(lang: Language, text: string, labels: seq<Context>)
    requires lang.Consuming()
  {
    |labels| == |text| && exists states :: |states| == |text| + 1 && states[0] == Root && LinesMean(lang, text, labels, states, 0)
  }

  lemma FirstLine(text: string, a: nat)
    requires a < |text| && (a == 0 || text[a - 1] == '\n')
    ensures IsLine(text, a, LineEnd(text, a))
    ensures forall i: nat, b: nat :: a <= i && IsLine(text, i, b) ==> (i == a && b == LineEnd(text, a)) || LineEnd(text, a) <= i
  {
  }

  lemma {:induction false} ScanStates(lang: Language, text: string, labels: seq<Context>, a: nat, c: Context)
    returns (states: seq<Context>)
    requires a <= |text| && (a == 0 || a == |text| || text[a - 1] == '\n')
    requires lang.Has(c) && c.IsContainer() && lang.Consuming()
    requires |labels| == |text| && labels[a..] == Scan(lang, text, a, c)
    ensures |states| == |text| + 1 && states[a] == c && LinesMean(lang, text, labels, states, a)
    decreases |text| - a
  {
    hide LineMeans, LineContexts, LineExit, Language.Has, Language.Consuming;
    states := seq(|text| + 1, _ => c);
    if a < |text| {
      var b := LineEnd(text, a);
      var line := text[a..b];
      FirstLine(text, a);
      LineFollows(lang, c, a == 0, line);
      PieceOf(labels, a, b, LineContexts(lang, c, a == 0, line), Scan(lang, text, b, LineExit(lang, c, a == 0, line)));
      var rest := ScanStates(lang, text, labels, b, LineExit(lang, c, a == 0, line));
      states := rest[a := c];
    }
  }

  lemma PieceOf(labels: seq<Context>, a: nat, b: nat, front: seq<Context>, back: seq<Context>)
    requires a <= b <= |labels| && |front| == b - a && labels[a..] == front + back
    ensures labels[a..b] == front && labels[b..] == back
  {
    assert labels[a..b] == labels[a..][..b - a];
    assert labels[b..] == labels[a..][b - a..];
  }

  lemma {:induction false} MeantIsScan(lang: Language, text: string, labels: seq<Context>, states: seq<Context>, a: nat)
    requires a <= |text| && (a == 0 || a == |text| || text[a - 1] == '\n') && lang.Consuming()
    requires |labels| == |text| && |states| == |text| + 1 && LinesMean(lang, text, labels, states, a)
    requires lang.Has(states[a]) && states[a].IsContainer()
    ensures labels[a..] == Scan(lang, text, a, states[a])
    decreases |text| - a
  {
    hide LineMeans, LineContexts, LineExit, Language.Has, Language.Consuming;
    if a < |text| {
      var b := LineEnd(text, a);
      FirstLine(text, a);
      LineIsMeant(lang, states[a], a == 0, text[a..b], labels[a..b], states[b]);
      MeantIsScan(lang, text, labels, states, b);
      assert labels[a..] == labels[a..b] + labels[b..];
    }
  }

  /** The scan from the toplevel state is exactly what the lines of the text mean. */
  lemma ScanIsMeant(lang: Language, text: string, labels: seq<Context>)
    requires lang.Consuming()
    ensures TextMeans(lang, text, labels) <==> labels == Scan(lang, text, 0, Root)
  {
    assert lang.Has(Root) && Root.IsContainer();
    assert labels[0..] == labels;
    if labels == Scan(lang, text, 0, Root) {
      var states := ScanStates(lang, text, labels, 0, Root);
      assert |states| == |text| + 1 && states[0] == Root && LinesMean(lang, text, labels, states, 0);
    }
    if TextMeans(lang, text, labels) {
      var states :| |states| == |text| + 1 && states[0] == Root && LinesMean(lang, text, labels, states, 0);
      MeantIsScan(lang, text, labels, states, 0);
    }
  }
}
