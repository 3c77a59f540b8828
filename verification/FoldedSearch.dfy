/** Searching without regard to case: the haystack is folded character by character, and
    positions in the folded text are mapped back. */
module FoldedSearch {
  import opened Wrappers

  /** Every character folds to at least one character. */
  ghost predicate Folding(fold: char -> string) {
    forall c :: fold(c) != ""
  }

  function Fold(fold: char -> string, s: string): string {
    if s == "" then "" else Fold(fold, s[..|s| - 1]) + fold(s[|s| - 1])
  }

  /** The length of the folded text before position `p`. */
  function Folded(fold: char -> string, s: string, p: nat): nat
    requires p <= |s|
  {
    |Fold(fold, s[..p])|
  }

  lemma FoldedNext(fold: char -> string, s: string, p: nat)
    requires p < |s|
    ensures Folded(fold, s, p + 1) == Folded(fold, s, p) + |fold(s[p])|
    ensures Fold(fold, s[..p + 1]) == Fold(fold, s[..p]) + fold(s[p])
  {
    assert s[..p + 1][..p] == s[..p];
  }

  lemma {:induction false} FoldSplit(fold: char -> string, s: string, t: string)
    ensures Fold(fold, s + t) == Fold(fold, s) + Fold(fold, t)
    decreases |t|
  {
    if t == "" {
      assert s + t == s;
    } else {
      var n := |t| - 1;
      assert (s + t)[..|s + t| - 1] == s + t[..n];
      FoldSplit(fold, s, t[..n]);
    }
  }

  lemma {:induction false} FoldedGrows(fold: char -> string, s: string, p: nat, q: nat)
    requires Folding(fold) && p <= q <= |s|
    ensures Folded(fold, s, p) + (q - p) <= Folded(fold, s, q)
    decreases q
  {
    if p < q {
      FoldedNext(fold, s, q - 1);
      FoldedGrows(fold, s, p, q - 1);
    }
  }

  /** What lies between two positions folds to the text between their images. */
  lemma FoldBetween(fold: char -> string, s: string, p: nat, q: nat)
    requires p <= q <= |s|
    ensures Folded(fold, s, p) <= Folded(fold, s, q) <= |Fold(fold, s)|
    ensures Fold(fold, s[p..q]) == Fold(fold, s)[Folded(fold, s, p)..Folded(fold, s, q)]
  {
    assert s[..q] == s[..p] + s[p..q] && s == s[..q] + s[q..];
    FoldSplit(fold, s[..p], s[p..q]);
    FoldSplit(fold, s[..q], s[q..]);
  }

  // ----- mapping back -----

  /** `p` is the least position whose folded prefix reaches `offset`. */
  ghost predicate Reaches(fold: char -> string, s: string, offset: int, p: nat) {
    p <= |s| && offset <= Folded(fold, s, p) && forall q :: 0 <= q < p ==> Folded(fold, s, q) < offset
  }

  /** `pointer_from_offset_skipping_decomp` */
  method PointerFromOffset(fold: char -> string, s: string, offset: nat) returns (p: nat)
    requires Folding(fold) && offset <= |Fold(fold, s)|
    ensures Reaches(fold, s, offset, p)
  {
    p := 0;
    var left: int := offset;
    assert s[..|s|] == s;
    while left > 0
      invariant p <= |s| && left == offset - Folded(fold, s, p)
      invariant forall q :: 0 <= q < p ==> Folded(fold, s, q) < offset
      decreases |s| - p
    {
      FoldedNext(fold, s, p);
      left := left - |fold(s[p])|;
      p := p + 1;
    }
  }

  /** `forward_chars_with_skipping` with decompositions: from `start` on, over ignored
      characters, until the folded length of the others reaches `count`. */
  method ForwardChars(fold: char -> string, s: string, start: nat, count: nat, ignored: char -> bool) returns (p: nat)
    requires Folding(fold) && start <= |s|
    ensures start <= p <= |s| && (p == |s| || count <= Kept(fold, ignored, s[start..p]))
    ensures forall q :: start <= q < p ==> Kept(fold, ignored, s[start..q]) < count
  {
    p := start;
    var i: int := count;
    while i > 0
      invariant start <= p <= |s| && i == count - Kept(fold, ignored, s[start..p])
      invariant forall q :: start <= q < p ==> Kept(fold, ignored, s[start..q]) < count
      decreases |s| - p
    {
      if p == |s| {
        return;
      }
      assert s[start..p + 1][..p - start] == s[start..p];
      if !ignored(s[p]) {
        i := i - |fold(s[p])|;
      }
      p := p + 1;
    }
  }

  /** The folded length of the characters that are not ignored. */
  function Kept(fold: char -> string, ignored: char -> bool, s: string): nat {
    if s == "" then 0
    else Kept(fold, ignored, s[..|s| - 1]) + if ignored(s[|s| - 1]) then 0 else |fold(s[|s| - 1])|
  }

  lemma {:induction false} NothingIgnored(fold: char -> string, s: string)
    ensures Kept(fold, _ => false, s) == |Fold(fold, s)|
    decreases |s|
  {
    if s != "" { NothingIgnored(fold, s[..|s| - 1]); }
  }

  // ----- searching -----

  /** `exact_prefix_cmp`: the needle is at `i` of the folded text and no mark follows. */
  predicate Admissible(isMark: char -> bool, text: string, needle: string, i: nat) {
    && i + |needle| <= |text| && text[i..i + |needle|] == needle
    && (i + |needle| < |text| ==> !isMark(text[i + |needle|]))
  }

  /** `utf8_strcasestr`: the position of the first admissible occurrence, mapped back.
      `at` is the occurrence in the folded text. */
  method StrCaseStr(fold: char -> string, isMark: char -> bool, haystack: string, needle: string)
    returns (r: Option<nat>, ghost at: nat)
    requires Folding(fold)
    ensures needle == "" ==> r == Some(0)
    ensures needle != "" && r.None? ==> forall i :: 0 <= i ==> !Admissible(isMark, Fold(fold, haystack), needle, i)
    ensures needle != "" && r.Some? ==>
      && Admissible(isMark, Fold(fold, haystack), needle, at)
      && (forall i :: 0 <= i < at ==> !Admissible(isMark, Fold(fold, haystack), needle, i))
      && Reaches(fold, haystack, at, r.value)
  {
    at := 0;
    var caseless := Fold(fold, haystack);
    if needle == "" {
      return Some(0), 0;
    }
    if |caseless| < |needle| {
      return None, 0;
    }
    var i := 0;
    while i < |caseless|
      invariant 0 <= i <= |caseless|
      invariant forall j :: 0 <= j < i ==> !Admissible(isMark, caseless, needle, j)
    {
      if Admissible(isMark, caseless, needle, i) {
        var p := PointerFromOffset(fold, haystack, i);
        return Some(p), i;
      }
      i := i + 1;
    }
    r := None;
  }

  /** `lines_match` for the first line: where the match in the line begins, and where it ends,
      perhaps beyond the line, in what follows. */
  method FindInLine(fold: char -> string, isMark: char -> bool, line: string, beyond: string, needle: string)
    returns (r: Option<(nat, nat)>, ghost at: nat)
    requires Folding(fold) && needle != ""
    ensures r.None? ==> forall i :: 0 <= i ==> !Admissible(isMark, Fold(fold, line), needle, i)
    ensures r.Some? ==>
      && Admissible(isMark, Fold(fold, line), needle, at)
      && (forall i :: 0 <= i < at ==> !Admissible(isMark, Fold(fold, line), needle, i))
      && Located(fold, line + beyond, needle, at, r.value.0, r.value.1)
  {
    var start;
    start, at := StrCaseStr(fold, isMark, line, needle);
    if start.None? {
      return None, at;
    }
    var s := line + beyond;
    var end := ForwardChars(fold, s, start.value, |needle|, _ => false);
    r := Some((start.value, end));
    ReachesInside(fold, line, beyond, at, start.value);
    forall q | start.value <= q <= |s| ensures Kept(fold, _ => false, s[start.value..q]) == Folded(fold, s, q) - Folded(fold, s, start.value) {
      NothingIgnored(fold, s[start.value..q]);
      FoldBetween(fold, s, start.value, q);
    }
  }

  lemma ReachesInside(fold: char -> string, line: string, beyond: string, at: nat, p: nat)
    requires Reaches(fold, line, at, p)
    ensures Reaches(fold, line + beyond, at, p)
  {
    forall q | 0 <= q <= p ensures Folded(fold, line + beyond, q) == Folded(fold, line, q) {
      assert (line + beyond)[..q] == line[..q];
    }
  }

  /** The range [b, e) that is reported for the occurrence at `i`: it begins at the least
      position that reaches `i`, and ends at the least one from which the folded length
      covers the needle, or at the end of the line. */
  ghost predicate Located(fold: char -> string, s: string, needle: string, i: nat, b: nat, e: nat) {
    && Reaches(fold, s, i, b) && b <= e <= |s|
    && (e == |s| || Folded(fold, s, b) + |needle| <= Folded(fold, s, e))
    && (forall q :: b <= q < e ==> Folded(fold, s, q) < Folded(fold, s, b) + |needle|)
  }

  // ----- when the reported range is the occurrence -----

  ghost predicate Boundary(fold: char -> string, s: string, i: int) {
    exists p :: 0 <= p <= |s| && Folded(fold, s, p) == i
  }

  lemma BoundaryReached(fold: char -> string, s: string, i: int, p: nat)
    requires Folding(fold) && Reaches(fold, s, i, p) && Boundary(fold, s, i)
    ensures Folded(fold, s, p) == i
  {
    var q :| 0 <= q <= |s| && Folded(fold, s, q) == i;
    if q < p { } else { FoldedGrows(fold, s, p, q); }
  }

  /** The range is the occurrence, neither more nor less, exactly if both ends of the
      occurrence fall on character boundaries; then the text in it folds to the needle. */
  lemma RangeIsOccurrence(fold: char -> string, s: string, needle: string, i: nat, b: nat, e: nat)
    requires Folding(fold) && Located(fold, s, needle, i, b, e) && i + |needle| <= |Fold(fold, s)|
    requires Fold(fold, s)[i..i + |needle|] == needle
    ensures (Folded(fold, s, b) == i && Folded(fold, s, e) == i + |needle|) <==>
            Boundary(fold, s, i) && Boundary(fold, s, i + |needle|)
    ensures Folded(fold, s, b) == i && Folded(fold, s, e) == i + |needle| ==> Fold(fold, s[b..e]) == needle
  {
    FoldBetween(fold, s, b, e);
    if Boundary(fold, s, i) && Boundary(fold, s, i + |needle|) {
      BoundaryReached(fold, s, i, b);
      var q :| 0 <= q <= |s| && Folded(fold, s, q) == i + |needle|;
      assert s[..|s|] == s;
      assert b <= q;
      if e <= q { FoldedGrows(fold, s, e, q); }
    }
  }

  /** Every character folds to one that is no mark, followed by marks, or to marks. */
  ghost predicate Decomposing(fold: char -> string, isMark: char -> bool) {
    forall c, k :: 0 < k < |fold(c)| ==> isMark(fold(c)[k])
  }

  /** Where the folded text has no mark a character begins. */
  lemma {:induction false} NoMarkIsBoundary(fold: char -> string, isMark: char -> bool, s: string, i: nat)
    requires Decomposing(fold, isMark) && i < |Fold(fold, s)| && !isMark(Fold(fold, s)[i])
    ensures Boundary(fold, s, i)
    decreases |s|
  {
    var n := |s| - 1;
    var head := Fold(fold, s[..n]);
    if i < |head| {
      NoMarkIsBoundary(fold, isMark, s[..n], i);
      var p :| 0 <= p <= n && Folded(fold, s[..n], p) == i;
      assert s[..n][..p] == s[..p];
      assert Folded(fold, s, p) == i;
    } else {
      assert Fold(fold, s)[i] == fold(s[n])[i - |head|];
      assert Folded(fold, s, n) == i;
    }
  }

  /** With such a folding an admissible occurrence of a needle that does not begin with a
      mark is always reported exactly. */
  lemma AdmissibleIsExact(fold: char -> string, isMark: char -> bool, s: string, needle: string, i: nat, b: nat, e: nat)
    requires Folding(fold) && Decomposing(fold, isMark) && needle != "" && !isMark(needle[0])
    requires Admissible(isMark, Fold(fold, s), needle, i) && Located(fold, s, needle, i, b, e)
    ensures Folded(fold, s, b) == i && Folded(fold, s, e) == i + |needle| && Fold(fold, s[b..e]) == needle
  {
    assert Fold(fold, s)[i] == Fold(fold, s)[i..i + |needle|][0];
    NoMarkIsBoundary(fold, isMark, s, i);
    if i + |needle| < |Fold(fold, s)| {
      NoMarkIsBoundary(fold, isMark, s, i + |needle|);
    } else {
      assert s[..|s|] == s;
      assert Folded(fold, s, |s|) == i + |needle|;
    }
    RangeIsOccurrence(fold, s, needle, i, b, e);
  }

  /** With a folding like that of the sharp s the reported range can be too long. */
  lemma SharpS()
    ensures var fold: char -> string, isMark := (c: char) => if c == 'B' then "ss" else [c], (c: char) => false;
      && Folding(fold) && Admissible(isMark, Fold(fold, "B"), "s", 0) && Located(fold, "B", "s", 0, 0, 1)
      && Fold(fold, "B"[0..1]) != "s"
  {
    var fold: char -> string := c => if c == 'B' then "ss" else [c];
    assert "B"[..1] == "B" && "B"[..0] == "" && "B"[0..1] == "B";
    assert Fold(fold, "B"[..0]) == "" && Fold(fold, "B") == "" + fold('B') == "ss";
    assert Folded(fold, "B", 0) == 0 && Folded(fold, "B", 1) == 2;
  }
}
