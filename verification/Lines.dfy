/** Lines of the buffer and the analysis of the whole buffer in one scan. */
module Lines {
  import opened Contexts
  import opened Language
  import opened LineAnalysis

  predicate IsLineStart(text: string, a: int) {
    a == 0 || (0 < a <= |text| && text[a - 1] == '\n')
  }

  /** The beginning of the next line, or the end of the text. */
  function LineEnd(text: string, a: nat): (b: nat)
    requires a < |text|
    ensures a < b <= |text|
    ensures b < |text| ==> text[b - 1] == '\n'
    ensures forall i :: a <= i < b - 1 ==> text[i] != '\n'
    decreases |text| - a
  {
    if text[a] == '\n' || a + 1 == |text| then a + 1 else LineEnd(text, a + 1)
  }

  /** Where the terminator of the line is, or the end of the text. */
  function LineTextEnd(text: string, a: nat): (b: nat)
    requires a < |text|
    ensures a <= b <= |text| && (b < |text| ==> text[b] == '\n')
    ensures forall i :: a <= i < b ==> text[i] != '\n'
  {
    var b := LineEnd(text, a);
    if text[b - 1] == '\n' then b - 1 else b
  }

  /** The line with the offset `o`: where it begins. */
  function LineStart(text: string, o: nat): (a: nat)
    requires o <= |text|
    ensures a <= o && IsLineStart(text, a)
    ensures forall i :: a <= i < o ==> text[i] != '\n'
  {
    if IsLineStart(text, o) then o else LineStart(text, o - 1)
  }

  /** The offsets o with a <= o < Top(text, b) are those of the line [a, b): the
      end of the text belongs to the last line unless that is terminated. */
  function Top(text: string, b: nat): int
    requires 0 < b <= |text|
  {
    if b == |text| && text[b - 1] != '\n' then b + 1 else b
  }

  lemma LineOf(text: string, o: nat)
    requires o <= |text|
    ensures var a := LineStart(text, o); a < |text| ==> a <= o < Top(text, LineEnd(text, a))
    ensures LineStart(text, o) == |text| ==> o == |text|
  {
    var a := LineStart(text, o);
    assert a < |text| && LineEnd(text, a) <= o ==> LineEnd(text, a) == |text|;
  }

  /** The contexts of the text from the line start `a` on, in state `c` there. */
  function Scan(lang: Language, text: string, a: nat, c: Context): (r: seq<Context>)
    requires a <= |text| && lang.Has(c) && c.IsContainer() && lang.Consuming()
    ensures |r| == |text| - a
    decreases |text| - a
  {
    if a == |text| then []
    else
      var b := LineEnd(text, a);
      LineContexts(lang, c, a == 0, text[a..b]) + Scan(lang, text, b, LineExit(lang, c, a == 0, text[a..b]))
  }

  /** The state at the end of the text. */
  function ScanEnd(lang: Language, text: string, a: nat, c: Context): (r: Context)
    requires a <= |text| && lang.Has(c) && c.IsContainer() && lang.Consuming()
    decreases |text| - a
  {
    if a == |text| then c
    else
      var b := LineEnd(text, a);
      ScanEnd(lang, text, b, LineExit(lang, c, a == 0, text[a..b]))
  }

  /** The state after a terminated line is the context of its terminator. */
  lemma ExitIsLast(lang: Language, c: Context, first: bool, line: string)
    requires lang.Has(c) && c.IsContainer() && lang.Consuming() && line != "" && line[|line| - 1] == '\n'
    ensures LineContexts(lang, c, first, line)[|line| - 1] == LineExit(lang, c, first, line)
    ensures Stable(lang, LineExit(lang, c, first, line))
  {
    LineEndStable(lang, Analyze(lang, c, first, Text(line), 0).1);
  }
}
