/** `update_tree` keeps the tree consistent but for the lines that it leaves as they are
    although they may not be right, which `EditMissed` lists. */
module EditStep {
  import opened Wrappers
  import opened Contexts
  import opened Language
  import opened LineAnalysis
  import opened Lines
  import opened SegmentTree
  import opened Labelling
  import opened Dirt
  import opened DirtMoves
  import opened Consistency
  import opened InvalidRegion
  import opened TreeUpdate

  // ----- lines outside the region -----

  lemma {:induction false} PrefixLineEnd(s: string, t: string, n: nat, a: nat)
    requires n <= |s| && n <= |t| && s[..n] == t[..n] && a < |t|
    requires LineEnd(t, a) <= n && t[LineEnd(t, a) - 1] == '\n'
    ensures a < |s| && LineEnd(s, a) == LineEnd(t, a)
    decreases |t| - a
  {
    assert s[..n][a] == t[..n][a];
    if t[a] != '\n' { PrefixLineEnd(s, t, n, a + 1); }
  }

  lemma {:induction false} PrefixLineStart(s: string, t: string, n: nat, o: nat)
    requires n <= |s| && n <= |t| && s[..n] == t[..n] && o <= n
    ensures LineStart(s, o) == LineStart(t, o)
    decreases o
  {
    if o > 0 {
      assert s[..n][o - 1] == t[..n][o - 1];
      if t[o - 1] != '\n' { PrefixLineStart(s, t, n, o - 1); }
    }
  }

  lemma {:induction false} SuffixLineEnd(s: string, t: string, end: int, d: int, a: nat)
    requires 0 <= end <= a < |t| && 0 <= end - d && |t| == |s| + d && t[end..] == s[end - d..]
    ensures LineEnd(t, a) == LineEnd(s, a - d) + d
    decreases |t| - a
  {
    assert t[end..][a - end] == s[end - d..][a - end];
    if t[a] != '\n' && a + 1 < |t| { SuffixLineEnd(s, t, end, d, a + 1); }
  }

  lemma PrefixSlice(s: string, t: string, n: nat, a: nat, b: nat)
    requires a <= b <= n && n <= |s| && n <= |t| && s[..n] == t[..n]
    ensures s[a..b] == t[a..b]
  {
    forall i | a <= i < b ensures s[i] == t[i] {
      assert s[..n][i] == t[..n][i];
    }
  }

  lemma SuffixSlice(s: string, t: string, end: int, d: int, a: nat, b: nat)
    requires 0 <= end <= a <= b <= |t| && 0 <= end - d && |t| == |s| + d && t[end..] == s[end - d..]
    ensures s[a - d..b - d] == t[a..b]
  {
    forall i | a <= i < b ensures t[i] == s[i - d] {
      assert t[end..][i - end] == s[end - d..][i - end];
    }
  }

  lemma SuffixTop(s: string, t: string, end: int, d: int, a: nat)
    requires 0 <= end <= a < |t| && 0 <= end - d && |t| == |s| + d && t[end..] == s[end - d..]
    ensures LineEnd(t, a) == LineEnd(s, a - d) + d
    ensures Top(t, LineEnd(t, a)) == Top(s, LineEnd(s, a - d)) + d
  {
    SuffixLineEnd(s, t, end, d, a);
    var b := LineEnd(t, a);
    assert t[end..][b - 1 - end] == s[end - d..][b - 1 - end];
  }

  /** A line that begins after the region began at the same place before; one that
      begins earlier continues the old line at the end of the region. */
  lemma {:induction false} SuffixLineStart(s: string, t: string, end: int, d: int, o: nat)
    requires 0 <= end <= o <= |t| && 0 <= end - d && |t| == |s| + d && t[end..] == s[end - d..]
    ensures LineStart(s, o - d) == if LineStart(t, o) > end then LineStart(t, o) - d else LineStart(s, end - d)
    decreases o
  {
    if o > end {
      assert t[end..][o - 1 - end] == s[end - d..][o - 1 - end];
      if t[o - 1] != '\n' { SuffixLineStart(s, t, end, d, o - 1); }
    }
  }

  // ----- the edit -----

  ghost predicate Edited(t: Segment, u: Segment, s: string, x: string, start: int, end: int, d: int) {
    && Sound(t, s) && ValidRoot(u)
    && Coalesced(s, x, start, end, d)
    && SoundUpdate(t, u, start, end, d)
    && Follows(t, u, start, end - d, d)
  }

  /** The line right after the region begins there and is left as it is. */
  predicate LeftAtEnd(u: Segment, x: string, end: int) {
    0 <= end < |x| && IsLineStart(x, end) && !DirtyLine(u, x, end)
  }

  /** The old line with the end of the region was to be analyzed. */
  predicate OldLineDirty(t: Segment, s: string, end: int, d: int) {
    0 <= end - d < |s| && LineStart(s, end - d) < |s| && DirtyLine(t, s, LineStart(s, end - d))
  }

  /** The line at the end of the region, left as it is, was analyzed as a line of its own
      that was not the first. */
  predicate WasLine(t: Segment, s: string, end: int, d: int) {
    0 < end - d < |s| && IsLineStart(s, end - d) && !DirtyLine(t, s, end - d)
  }

  /** The line at `a` is left as it is although it may not be right: it was missed
      before; or it begins at the end of the region, has text and was no such line; or
      it is the next one, and the state at its beginning was still open. */
  predicate LeftMissed(t: Segment, u: Segment, s: string, x: string, end: int, d: int, missed: set<int>, a: int) {
    && 0 <= a < |x| && IsLineStart(x, a) && !DirtyLine(u, x, a)
    && (if a < end then a in missed
        else if a == end then x[a] != '\n' && (end - d in missed || !WasLine(t, s, end, d))
        else a - d in missed || (0 < a && PreviousLine(x, a) == end && OldLineDirty(t, s, end, d)))
  }

  function EditMissed(t: Segment, u: Segment, s: string, x: string, end: int, d: int, missed: set<int>): set<int> {
    set a | 0 <= a < |x| && LeftMissed(t, u, s, x, end, d, missed, a)
  }

  /** A character outside the region that is not to be analyzed keeps its context. */
  lemma KeptContext(t: Segment, u: Segment, s: string, x: string, start: int, end: int, d: int, o: nat, lo: int, hi: int)
    requires Edited(t, u, s, x, start, end, d) && o < |x| && lo <= o < hi && !Dirty(u.children, lo, hi)
    ensures o < start || end <= o
    ensures ContextAt(u, o).Some? && ContextAt(u, o) == ContextAt(t, if o < start then o else o - d)
  {
    if ContextAt(u, o) == None {
      InvalidIsDirty(u.children, o, Own(u), lo, hi);
    }
    assert o < start ==> KeptOrLost(ContextAt(u, o), t, o, start, end - d);
    assert end <= o ==> KeptOrLost(ContextAt(u, o), t, o - d, start, end - d);
  }

  lemma {:induction false} TouchDirty(cs: seq<Segment>, o: int, a: int, y: int)
    requires HasInvalid(cs, o, o) && a <= o < y && !Dirty(cs, a, y)
    ensures a == o && Dirty(cs, o - 1, o)
    decreases cs
  {
    if cs[0].IsInvalid() && cs[0].startAt <= o && o <= cs[0].endAt {
    } else if HasInvalid(cs[0].children, o, o) {
      TouchDirty(cs[0].children, o, a, y);
    } else {
      TouchDirty(cs[1..], o, a, y);
    }
  }

  /** A clean line lies before the region or begins at or after its end. */
  lemma CleanLinePlace(t: Segment, u: Segment, s: string, x: string, start: int, end: int, d: int, a: nat)
    requires Edited(t, u, s, x, start, end, d) && a < |x| && !DirtyLine(u, x, a)
    ensures Top(x, LineEnd(x, a)) <= start || end <= a
    ensures start == a && Top(x, LineEnd(x, a)) > start ==> end == start
  {
    var y := Top(x, LineEnd(x, a));
    if a <= start < y {
      TouchDirty(u.children, start, a, y);
      KeptContext(t, u, s, x, start, end, d, a, a, y);
    } else if start < a {
      KeptContext(t, u, s, x, start, end, d, a, a, y);
    }
  }

  /** When the line right after the region is clean, the one before it is not. */
  lemma LineBeforeEnd(t: Segment, u: Segment, s: string, x: string, start: int, end: int, d: int)
    requires Edited(t, u, s, x, start, end, d) && end < |x| && IsLineStart(x, end) && !DirtyLine(u, x, end)
    ensures end > 0 && DirtyLine(u, x, PreviousLine(x, end))
  {
    var y := Top(x, LineEnd(x, end));
    if start == end {
      TouchDirty(u.children, start, end, y);
      DirtyWithin(u.children, 0, u.endAt, u.context, start - 1, start);
      var p := PreviousLine(x, end);
      LinesMeet(x, p, end);
      DirtyWiden(u.children, start - 1, start, p, end);
    } else {
      var p := PreviousLine(x, end);
      LinesMeet(x, p, end);
      assert ContextAt(u, end - 1) == None;
      InvalidIsDirty(u.children, end - 1, Own(u), p, end);
    }
  }

  /** The previous line ends where this one begins. */
  lemma LinesMeet(x: string, p: nat, a: nat)
    requires 0 < a <= |x| && IsLineStart(x, a) && p == PreviousLine(x, a)
    ensures LineEnd(x, p) == a && Top(x, a) == a
  {
    LinesBefore(x, p, a);
  }

  // ----- lines before the region -----

  lemma LineBefore(t: Segment, u: Segment, s: string, x: string, start: int, end: int, d: int, a: nat)
    requires Edited(t, u, s, x, start, end, d) && a < |x| && Top(x, LineEnd(x, a)) <= start
    ensures a < |s| && LineEnd(s, a) == LineEnd(x, a) && Top(s, LineEnd(s, a)) == Top(x, LineEnd(x, a)) == LineEnd(x, a)
    ensures IsLineStart(x, a) ==> IsLineStart(s, a)
    ensures s[a..LineEnd(s, a)] == x[a..LineEnd(x, a)]
    ensures DirtyLine(t, s, a) ==> DirtyLine(u, x, a)
  {
    hide SoundUpdate, Sound, LineEnd, Top, Dirty, IsLineStart;
    TextBefore(s, x, start, a);
  }

  lemma TextBefore(s: string, x: string, n: nat, a: nat)
    requires n <= |s| && n <= |x| && s[..n] == x[..n] && a < |x| && Top(x, LineEnd(x, a)) <= n
    ensures a < |s| && LineEnd(s, a) == LineEnd(x, a) && Top(s, LineEnd(s, a)) == Top(x, LineEnd(x, a)) == LineEnd(x, a)
    ensures IsLineStart(x, a) ==> IsLineStart(s, a)
    ensures s[a..LineEnd(s, a)] == x[a..LineEnd(x, a)]
  {
    var b := LineEnd(x, a);
    PrefixLineEnd(s, x, n, a);
    assert s[..n][b - 1] == x[..n][b - 1];
    if a > 0 { assert s[..n][a - 1] == x[..n][a - 1]; }
    PrefixSlice(s, x, n, a, b);
  }

  lemma KeptBefore(t: Segment, u: Segment, s: string, x: string, start: int, end: int, d: int, a: nat)
    requires Edited(t, u, s, x, start, end, d) && a < |x| && !DirtyLine(u, x, a) && Top(x, LineEnd(x, a)) <= start
    ensures forall o :: a <= o < LineEnd(x, a) ==> ContextAt(u, o) == ContextAt(t, o)
  {
    forall o | a <= o < LineEnd(x, a) ensures ContextAt(u, o) == ContextAt(t, o) {
      KeptContext(t, u, s, x, start, end, d, o, a, Top(x, LineEnd(x, a)));
    }
  }

  lemma IsBefore(lang: Language, t: Segment, u: Segment, s: string, x: string, start: int, end: int, d: int, a: nat, e: Context)
    requires lang.Consuming() && Edited(t, u, s, x, start, end, d) && a < |s| && lang.Has(e) && e.IsContainer()
    requires a < |x| && !DirtyLine(u, x, a) && Top(x, LineEnd(x, a)) <= start && AnalyzedFrom(lang, t, s, a, e)
    ensures AnalyzedFrom(lang, u, x, a, e)
  {
    hide Edited, AnalyzedFrom, DirtyLine, Dirty, LineEnd, Top, IsLineStart, ContextAt;
    LineBefore(t, u, s, x, start, end, d, a);
    KeptBefore(t, u, s, x, start, end, d, a);
    MovedLine(lang, t, u, s, x, a, 0, e);
  }

  lemma EntryBefore(lang: Language, t: Segment, u: Segment, s: string, x: string, start: int, end: int, d: int, a: nat, e: Context)
    requires Edited(t, u, s, x, start, end, d) && a < |s| && EntryOk(lang, t, s, a, e, -1)
    requires a < |x| && IsLineStart(x, a) && a <= start
    ensures EntryOk(lang, u, x, a, e, -1)
  {
    if a > 0 && !DirtyLine(u, x, PreviousLine(x, a)) {
      var p := PreviousLine(x, a);
      LinesMeet(x, p, a);
      LineBefore(t, u, s, x, start, end, d, p);
      PrefixLineStart(s, x, start, a - 1);
      KeptContext(t, u, s, x, start, end, d, a - 1, p, a);
    }
  }

  lemma OkBefore(lang: Language, t: Segment, u: Segment, s: string, x: string, start: int, end: int, d: int, a: nat, missed: set<int>)
    requires lang.Consuming() && Edited(t, u, s, x, start, end, d) && Consistent(lang, t, s, -1, missed)
    requires a < |x| && IsLineStart(x, a) && a !in missed && !DirtyLine(u, x, a) && Top(x, LineEnd(x, a)) <= start
    ensures LineOk(lang, u, x, a, -1)
  {
    LineBefore(t, u, s, x, start, end, d, a);
    var e := OldState(lang, t, s, a, missed);
    IsBefore(lang, t, u, s, x, start, end, d, a, e);
    EntryBefore(lang, t, u, s, x, start, end, d, a, e);
  }

  lemma OldState(lang: Language, t: Segment, s: string, a: nat, missed: set<int>) returns (e: Context)
    requires lang.Consuming() && Consistent(lang, t, s, -1, missed) && a < |s| && IsLineStart(s, a) && a !in missed && !DirtyLine(t, s, a)
    ensures lang.Has(e) && e.IsContainer() && EntryOk(lang, t, s, a, e, -1) && AnalyzedFrom(lang, t, s, a, e)
  {
    assert !Pending(t, s, a, -1);
    e :| EntryOk(lang, t, s, a, e, -1) && AnalyzedFrom(lang, t, s, a, e);
  }

  /** A line that moved with its contexts is analyzed from the same state. */
  lemma MovedLine(lang: Language, t: Segment, u: Segment, s: string, x: string, a: nat, d: int, e: Context)
    requires lang.Consuming() && lang.Has(e) && e.IsContainer() && a < |x| && 0 <= a - d < |s| && AnalyzedFrom(lang, t, s, a - d, e)
    requires LineEnd(x, a) - d == LineEnd(s, a - d) && x[a..LineEnd(x, a)] == s[a - d..LineEnd(s, a - d)]
    requires LineEnd(s, a - d) == |s| && s[|s| - 1] != '\n' ==> LineEnd(x, a) == |x|
    requires (a == 0) == (a - d == 0)
    requires forall o :: a <= o < LineEnd(x, a) ==> ContextAt(u, o) == ContextAt(t, o - d)
    ensures AnalyzedFrom(lang, u, x, a, e)
  {
    hide LineIs, Torn, LineContexts, ContextAt;
    if LineIs(lang, t, s, a - d, e) {
      MovedIs(lang, t, u, s, x, a, d, e);
    } else {
      TornOpen(lang, t, s, a - d, e);
      MovedTorn(lang, t, u, s, x, a, d, e);
    }
  }

  lemma MovedIs(lang: Language, t: Segment, u: Segment, s: string, x: string, a: nat, d: int, e: Context)
    requires lang.Consuming() && lang.Has(e) && e.IsContainer() && a < |x| && 0 <= a - d < |s| && LineIs(lang, t, s, a - d, e)
    requires LineEnd(x, a) - d == LineEnd(s, a - d) && x[a..LineEnd(x, a)] == s[a - d..LineEnd(s, a - d)]
    requires (a == 0) == (a - d == 0)
    requires forall o :: a <= o < LineEnd(x, a) ==> ContextAt(u, o) == ContextAt(t, o - d)
    ensures LineIs(lang, u, x, a, e)
  {
    hide LineContexts;
    forall o | a <= o < LineEnd(x, a)
      ensures ContextAt(u, o) == Some(LineContexts(lang, e, a == 0, x[a..LineEnd(x, a)])[o - a])
    {
      assert a - d <= o - d < LineEnd(s, a - d);
    }
  }

  lemma MovedTorn(lang: Language, t: Segment, u: Segment, s: string, x: string, a: nat, d: int, e: Context)
    requires lang.Consuming() && lang.Has(e) && e.IsContainer() && a < |x| && 0 <= a - d < |s| && Torn(lang, t, s, a - d, e)
    requires |x| - d == |s| && LineEnd(x, a) == |x| && x[a..LineEnd(x, a)] == s[a - d..LineEnd(s, a - d)]
    requires (a == 0) == (a - d == 0)
    requires forall o :: a <= o < LineEnd(x, a) ==> ContextAt(u, o) == ContextAt(t, o - d)
    ensures Torn(lang, u, x, a, e)
  {
    hide LineContexts;
    var labels := LineContexts(lang, e, a == 0, x[a..LineEnd(x, a)]);
    var last := labels[|x| - 1 - a];
    assert |x| - 1 - d == |s| - 1;
    forall o | a <= o < |x| ensures ContextAt(u, o) == Some(labels[o - a]) || (labels[o - a] == last && ContextAt(u, o) == Some(last.parent)) {
      assert a - d <= o - d < |s|;
      assert labels[o - d - (a - d)] == labels[o - a];
    }
  }

  // ----- lines after the region -----

  lemma LineAfter(t: Segment, u: Segment, s: string, x: string, start: int, end: int, d: int, a: nat)
    requires Edited(t, u, s, x, start, end, d) && end <= a < |x|
    ensures 0 <= a - d < |s| && LineEnd(x, a) - a == LineEnd(s, a - d) - (a - d)
    ensures Top(x, LineEnd(x, a)) == Top(s, LineEnd(s, a - d)) + d
    ensures end < a ==> (IsLineStart(x, a) <==> IsLineStart(s, a - d))
    ensures s[a - d..LineEnd(s, a - d)] == x[a..LineEnd(x, a)]
    ensures end < a && DirtyLine(t, s, a - d) ==> DirtyLine(u, x, a)
  {
    SuffixTop(s, x, end, d, a);
    SuffixSlice(s, x, end, d, a, LineEnd(x, a));
    if end < a { assert s[end - d..][a - 1 - end] == x[end..][a - 1 - end]; }
  }

  lemma PreviousMoved(s: string, x: string, end: int, d: int, a: nat)
    requires 0 <= end < a < |x| && 0 <= end - d && |x| == |s| + d && x[end..] == s[end - d..]
    ensures 0 < a - d < |s| && end - d <= |s|
    ensures PreviousLine(s, a - d) == if PreviousLine(x, a) > end then PreviousLine(x, a) - d else LineStart(s, end - d)
  {
    SuffixLineStart(s, x, end, d, a - 1);
  }

  /** The line before one that begins after the region: its old counterpart was to be
      analyzed only if it still is. */
  lemma PreviousAfterRegion(t: Segment, u: Segment, s: string, x: string, start: int, end: int, d: int, a: nat)
    requires Edited(t, u, s, x, start, end, d)
    requires end < a < |x| && IsLineStart(x, a) && !DirtyLine(u, x, PreviousLine(x, a))
    requires PreviousLine(x, a) == end ==> !OldLineDirty(t, s, end, d)
    ensures 0 < a - d < |s| && !DirtyLine(t, s, PreviousLine(s, a - d))
  {
    hide SoundUpdate, Follows, Sound, DirtyLine, Dirty, PreviousLine, LineEnd, LineStart, Top;
    var p := PreviousLine(x, a);
    LinesMeet(x, p, a);
    PreviousMoved(s, x, end, d, a);
    CleanLinePlace(t, u, s, x, start, end, d, p);
    if p > end {
      LineAfter(t, u, s, x, start, end, d, p);
    }
  }

  lemma LineKept(t: Segment, u: Segment, s: string, x: string, start: int, end: int, d: int, a: nat)
    requires Edited(t, u, s, x, start, end, d) && end <= a < |x| && !DirtyLine(u, x, a)
    ensures forall o :: a <= o < LineEnd(x, a) ==> ContextAt(u, o) == ContextAt(t, o - d)
  {
    forall o | a <= o < LineEnd(x, a) ensures ContextAt(u, o) == ContextAt(t, o - d) {
      KeptContext(t, u, s, x, start, end, d, o, a, Top(x, LineEnd(x, a)));
    }
  }

  lemma IsAfter(lang: Language, t: Segment, u: Segment, s: string, x: string, start: int, end: int, d: int, a: nat, e: Context)
    requires lang.Consuming() && Edited(t, u, s, x, start, end, d) && lang.Has(e) && e.IsContainer()
    requires end <= a < |x| && 0 < a - d < |s| && 0 < a && !DirtyLine(u, x, a) && AnalyzedFrom(lang, t, s, a - d, e)
    ensures AnalyzedFrom(lang, u, x, a, e)
  {
    LineAfter(t, u, s, x, start, end, d, a);
    LineKept(t, u, s, x, start, end, d, a);
    MovedLine(lang, t, u, s, x, a, d, e);
  }

  /** A clean line at or after the end of the region whose old counterpart was a clean
      line of its own, neither of them the first. */
  lemma LineFollows(lang: Language, t: Segment, u: Segment, s: string, x: string, start: int, end: int, d: int, a: nat, missed: set<int>)
    returns (e: Context)
    requires lang.Consuming() && Edited(t, u, s, x, start, end, d) && Consistent(lang, t, s, -1, missed)
    requires end <= a < |x| && 0 < a - d < |s| && 0 < a && !DirtyLine(u, x, a)
    requires IsLineStart(s, a - d) && a - d !in missed && !DirtyLine(t, s, a - d)
    ensures lang.Has(e) && e.IsContainer() && EntryOk(lang, t, s, a - d, e, -1) && AnalyzedFrom(lang, u, x, a, e)
  {
    hide AnalyzedFrom, EntryOk, Consistent, Edited;
    e := OldState(lang, t, s, a - d, missed);
    IsAfter(lang, t, u, s, x, start, end, d, a, e);
  }

  lemma EntryFollows(lang: Language, t: Segment, u: Segment, s: string, x: string, start: int, end: int, d: int, a: nat, e: Context)
    requires Edited(t, u, s, x, start, end, d)
    requires end < a < |x| && IsLineStart(x, a) && 0 <= a - d < |s| && EntryOk(lang, t, s, a - d, e, -1)
    requires PreviousLine(x, a) == end ==> !OldLineDirty(t, s, end, d)
    ensures EntryOk(lang, u, x, a, e, -1)
  {
    var p := PreviousLine(x, a);
    if !DirtyLine(u, x, p) {
      PreviousAfterRegion(t, u, s, x, start, end, d, a);
      LinesMeet(x, p, a);
      KeptContext(t, u, s, x, start, end, d, a - 1, p, a);
    }
  }

  lemma OkAfter(lang: Language, t: Segment, u: Segment, s: string, x: string, start: int, end: int, d: int, a: nat, missed: set<int>)
    requires lang.Consuming() && Edited(t, u, s, x, start, end, d) && Consistent(lang, t, s, -1, missed)
    requires end < a < |x| && IsLineStart(x, a) && !DirtyLine(u, x, a) && !LeftMissed(t, u, s, x, end, d, missed, a)
    ensures LineOk(lang, u, x, a, -1)
  {
    LineAfter(t, u, s, x, start, end, d, a);
    var e := LineFollows(lang, t, u, s, x, start, end, d, a, missed);
    EntryFollows(lang, t, u, s, x, start, end, d, a, e);
  }

  /** The line right after the region. */
  lemma OkAtEnd(lang: Language, t: Segment, u: Segment, s: string, x: string, start: int, end: int, d: int, missed: set<int>)
    requires lang.Consuming() && Edited(t, u, s, x, start, end, d) && Consistent(lang, t, s, -1, missed)
    requires end < |x| && IsLineStart(x, end) && !DirtyLine(u, x, end) && !LeftMissed(t, u, s, x, end, d, missed, end)
    ensures LineOk(lang, u, x, end, -1)
  {
    LineBeforeEnd(t, u, s, x, start, end, d);
    var e;
    if x[end] == '\n' {
      e := EmptyAtEnd(lang, t, u, s, x, start, end, d);
    } else {
      e := LineFollows(lang, t, u, s, x, start, end, d, end, missed);
    }
    assert EntryOk(lang, u, x, end, e, -1);
  }

  lemma EmptyAtEnd(lang: Language, t: Segment, u: Segment, s: string, x: string, start: int, end: int, d: int)
    returns (e: Context)
    requires lang.Consuming() && Edited(t, u, s, x, start, end, d) && TerminatorsOk(lang, t, s)
    requires end < |x| && x[end] == '\n' && !DirtyLine(u, x, end)
    ensures lang.Has(e) && Stable(lang, e) && AnalyzedFrom(lang, u, x, end, e)
  {
    KeptContext(t, u, s, x, start, end, d, end, end, Top(x, LineEnd(x, end)));
    assert s[end - d..][0] == x[end..][0];
    e := ContextAt(u, end).value;
    assert s[end - d] == '\n';
    EmptyLineIs(lang, u, x, end, e);
  }

  /** An empty line in a state that line ends keep is analyzed from that state. */
  lemma EmptyLineIs(lang: Language, u: Segment, x: string, a: nat, e: Context)
    requires lang.Consuming() && a < |x| && x[a] == '\n' && lang.Has(e) && Stable(lang, e) && ContextAt(u, a) == Some(e)
    ensures LineIs(lang, u, x, a, e)
  {
    NothingOnEmptyLine(lang, e, a == 0);
    assert LineEnd(x, a) == a + 1;
    assert x[a..a + 1] == "\n";
    assert Text("\n") == "";
  }

  // ----- lost beginnings -----

  /** A line that meets the region and the text around it is to be analyzed. */
  lemma RegionLineDirty(t: Segment, u: Segment, s: string, x: string, start: int, end: int, d: int, a: nat)
    requires Edited(t, u, s, x, start, end, d) && a < |x|
    requires a < end < Top(x, LineEnd(x, a)) || a < start < Top(x, LineEnd(x, a)) || (a <= start && start < end && start < Top(x, LineEnd(x, a)))
    ensures DirtyLine(u, x, a)
  {
    if !DirtyLine(u, x, a) {
      CleanLinePlace(t, u, s, x, start, end, d, a);
    }
  }

  lemma StrayBefore(t: Segment, u: Segment, s: string, x: string, start: int, end: int, d: int, q: nat)
    requires Edited(t, u, s, x, start, end, d) && q < start && q < |x| && NonStart(u.children, q) && NonStartOk(t, s, q, -1)
    ensures NonStartOk(u, x, q, -1)
  {
    PrefixLineStart(s, x, start, q);
    var a := LineStart(x, q);
    LineOf(x, q);
    if Top(x, LineEnd(x, a)) <= start {
      LineBefore(t, u, s, x, start, end, d, a);
    } else {
      RegionLineDirty(t, u, s, x, start, end, d, a);
    }
    if q == a && a > 0 {
      PrefixLineStart(s, x, start, a - 1);
      LinesMeet(x, PreviousLine(x, a), a);
      LineBefore(t, u, s, x, start, end, d, PreviousLine(x, a));
    }
  }

  lemma StrayInside(t: Segment, u: Segment, s: string, x: string, start: int, end: int, d: int, q: nat)
    requires Edited(t, u, s, x, start, end, d) && start <= q <= end && q < |x|
    ensures NonStartOk(u, x, q, -1)
  {
    var a := LineStart(x, q);
    LineOf(x, q);
    var y := Top(x, LineEnd(x, a));
    if q < end {
      assert ContextAt(u, q) == None;
      InvalidIsDirty(u.children, q, Own(u), a, y);
    } else if a < end {
      RegionLineDirty(t, u, s, x, start, end, d, a);
    } else if !DirtyLine(u, x, end) {
      LineBeforeEnd(t, u, s, x, start, end, d);
    }
  }

  lemma StrayAfter(t: Segment, u: Segment, s: string, x: string, start: int, end: int, d: int, q: nat)
    requires Edited(t, u, s, x, start, end, d)
    requires end < q < |x| && 0 <= q - d && NonStartOk(t, s, q - d, -1) && LineStart(x, q) !in EditMissed(t, u, s, x, end, d, {})
    ensures NonStartOk(u, x, q, -1)
  {
    var a := LineStart(x, q);
    LineOf(x, q);
    assert !LeftMissed(t, u, s, x, end, d, {}, a);
    if a > end {
      StrayFollows(t, u, s, x, start, end, d, q);
    } else if a < end {
      RegionLineDirty(t, u, s, x, start, end, d, a);
    } else {
      SuffixLineStart(s, x, end, d, q);
    }
  }

  lemma StrayFollows(t: Segment, u: Segment, s: string, x: string, start: int, end: int, d: int, q: nat)
    requires Edited(t, u, s, x, start, end, d)
    requires end < q < |x| && LineStart(x, q) > end && 0 <= q - d && NonStartOk(t, s, q - d, -1)
    requires !LeftMissed(t, u, s, x, end, d, {}, LineStart(x, q))
    ensures NonStartOk(u, x, q, -1)
  {
    hide SoundUpdate, Follows, Sound, Dirty, LineEnd, PreviousLine, IsLineStart;
    var a := LineStart(x, q);
    SuffixLineStart(s, x, end, d, q);
    LineAfter(t, u, s, x, start, end, d, a);
    if q == a && !DirtyLine(u, x, a) && !DirtyLine(u, x, PreviousLine(x, a)) {
      PreviousAfterRegion(t, u, s, x, start, end, d, a);
    }
  }

  // ----- the invariant over an edit -----

  lemma EditTerminators(lang: Language, t: Segment, u: Segment, s: string, x: string, start: int, end: int, d: int)
    requires Edited(t, u, s, x, start, end, d) && TerminatorsOk(lang, t, s)
    ensures TerminatorsOk(lang, u, x)
  {
    forall o | 0 <= o < |x| && x[o] == '\n' && ContextAt(u, o).Some?
      ensures lang.Has(ContextAt(u, o).value) && Stable(lang, ContextAt(u, o).value)
    {
      if o < start {
        assert KeptOrLost(ContextAt(u, o), t, o, start, end - d);
        assert s[..start][o] == x[..start][o];
      } else if end <= o {
        assert KeptOrLost(ContextAt(u, o), t, o - d, start, end - d);
        assert s[end - d..][o - end] == x[end..][o - end];
      }
    }
  }

  /** After any edit the tree is consistent but for the lines listed by `EditMissed`. */
  lemma EditKeeps(lang: Language, t: Segment, u: Segment, s: string, x: string, start: int, end: int, d: int, missed: set<int>)
    requires lang.Consuming() && Edited(t, u, s, x, start, end, d) && Consistent(lang, t, s, -1, missed)
    ensures Consistent(lang, u, x, -1, EditMissed(t, u, s, x, end, d, missed))
  {
    forall a | 0 <= a < |x| && IsLineStart(x, a) && a !in EditMissed(t, u, s, x, end, d, missed) && !Pending(u, x, a, -1)
      ensures LineOk(lang, u, x, a, -1)
    {
      assert !LeftMissed(t, u, s, x, end, d, missed, a);
      CleanLinePlace(t, u, s, x, start, end, d, a);
      if Top(x, LineEnd(x, a)) <= start && a < end {
        OkBefore(lang, t, u, s, x, start, end, d, a, missed);
      } else if a == end {
        OkAtEnd(lang, t, u, s, x, start, end, d, missed);
      } else {
        OkAfter(lang, t, u, s, x, start, end, d, a, missed);
      }
    }
    EditTerminators(lang, t, u, s, x, start, end, d);
  }

  /** A stray beginning after an edit was one before, or its line is one that the edit
      misses. */
  lemma EditStrays(t: Segment, u: Segment, s: string, x: string, start: int, end: int, d: int, q: int)
    requires Edited(t, u, s, x, start, end, d) && Stray(u, x, q, -1)
    ensures 0 <= q < |x|
    ensures (q < start && Stray(t, s, q, -1)) || (end < q && Stray(t, s, q - d, -1)) || LineStart(x, q) in EditMissed(t, u, s, x, end, d, {})
  {
    NonStartNotRoot(u, q);
    if q < start {
      if NonStartOk(t, s, q, -1) { StrayBefore(t, u, s, x, start, end, d, q); }
    } else if q <= end {
      StrayInside(t, u, s, x, start, end, d, q);
    } else if LineStart(x, q) !in EditMissed(t, u, s, x, end, d, {}) {
      NonStartNotRoot(t, q - d);
      if NonStartOk(t, s, q - d, -1) { StrayAfter(t, u, s, x, start, end, d, q); }
    }
  }

  /** So an edit that misses nothing leaves a regular tree regular. */
  lemma EditRegular(t: Segment, u: Segment, s: string, x: string, start: int, end: int, d: int)
    requires Edited(t, u, s, x, start, end, d) && Regular(t, s) && EditMissed(t, u, s, x, end, d, {}) == {}
    ensures Regular(u, x)
  {
    hide Edited, EditMissed, Stray;
    forall q ensures !Stray(u, x, q, -1) {
      if Stray(u, x, q, -1) { EditStrays(t, u, s, x, start, end, d, q); }
    }
  }
}
