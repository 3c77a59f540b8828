/** Searching the buffer line by line without regard to case, for a text of any number of
    lines (`lines_match`, `gtk_source_iter_forward_search`). */
module FoldedLines {
  import opened Wrappers
  import opened Lines
  import opened FoldedSearch

  /** Folding leaves line breaks alone, and doing it once is enough. */
  ghost predicate Tame(fold: char -> string, isMark: char -> bool) {
    && Folding(fold)
    && fold('\n') == "\n" && !isMark('\n') && (forall c :: c != '\n' ==> '\n' !in fold(c))
    && (forall c, k :: 0 <= k < |fold(c)| ==> fold(fold(c)[k]) == [fold(c)[k]])
  }

  /** No character of the text folds to `c` other than in front. */
  ghost predicate Aligned(fold: char -> string, s: string, c: char) {
    forall p, k :: 0 <= p < |s| && 0 < k < |fold(s[p])| ==> fold(s[p])[k] != c
  }

  lemma {:induction false} AlignedBoundary(fold: char -> string, s: string, c: char, i: nat)
    requires Aligned(fold, s, c) && i < |Fold(fold, s)| && Fold(fold, s)[i] == c
    ensures Boundary(fold, s, i)
    decreases |s|
  {
    var n := |s| - 1;
    var head := Fold(fold, s[..n]);
    if i < |head| {
      AlignedBoundary(fold, s[..n], c, i);
      var p :| 0 <= p <= n && Folded(fold, s[..n], p) == i;
      assert s[..n][..p] == s[..p];
      assert Folded(fold, s, p) == i;
    } else {
      assert Fold(fold, s)[i] == fold(s[n])[i - |head|];
      assert Folded(fold, s, n) == i;
    }
  }

  /** With a folding to a base and marks that is so for every text that does not begin with a
      mark. */
  lemma DecomposingIsAligned(fold: char -> string, isMark: char -> bool, s: string, c: char)
    requires Decomposing(fold, isMark) && !isMark(c)
    ensures Aligned(fold, s, c)
  {
  }

  // ----- folding and lines -----

  predicate Begins(f: string, p: string) {
    p <= f
  }

  predicate Unmarked(isMark: char -> bool, f: string, p: string) {
    |p| < |f| ==> !isMark(f[|p|])
  }

  lemma {:induction false} NoNewline(fold: char -> string, s: string)
    requires (forall c :: c != '\n' ==> '\n' !in fold(c)) && '\n' !in s
    ensures '\n' !in Fold(fold, s)
    decreases |s|
  {
    if s != "" {
      NoNewline(fold, s[..|s| - 1]);
      assert s[|s| - 1] in s;
    }
  }

  /** A line break, if there is one, is the last character. */
  predicate IsPiece(s: string) {
    s != "" && '\n' !in s[..|s| - 1]
  }

  predicate Broken(s: string) {
    s != "" && s[|s| - 1] == '\n'
  }

  lemma PieceFolds(fold: char -> string, isMark: char -> bool, s: string)
    requires Tame(fold, isMark) && IsPiece(s)
    ensures IsPiece(Fold(fold, s)) && (Broken(Fold(fold, s)) <==> Broken(s))
  {
    var n := |s| - 1;
    NoNewline(fold, s[..n]);
    var a, b := Fold(fold, s[..n]), fold(s[n]);
    assert Fold(fold, s) == a + b && b != "";
    assert (a + b)[..|a + b| - 1] == a + b[..|b| - 1];
    assert (a + b)[|a + b| - 1] == b[|b| - 1];
    assert b[|b| - 1] in b && forall c :: c in b[..|b| - 1] ==> c in b;
  }

  lemma OnlyLast(s: string)
    requires IsPiece(s)
    ensures forall i :: 0 <= i < |s| - 1 ==> s[i] != '\n'
  {
    forall i | 0 <= i < |s| - 1 ensures s[i] != '\n' {
      assert s[i] == s[..|s| - 1][i];
    }
  }

  /** The line at the beginning of `s`. */
  lemma FirstPiece(s: string)
    requires s != ""
    ensures IsPiece(s[..LineEnd(s, 0)]) && (LineEnd(s, 0) < |s| ==> Broken(s[..LineEnd(s, 0)]))
  {
  }

  lemma {:induction false} FoldTwice(fold: char -> string, isMark: char -> bool, s: string)
    requires Tame(fold, isMark)
    ensures Fold(fold, Fold(fold, s)) == Fold(fold, s)
    decreases |s|
  {
    if s != "" {
      var n := |s| - 1;
      FoldTwice(fold, isMark, s[..n]);
      FoldSplit(fold, Fold(fold, s[..n]), fold(s[n]));
      FoldedOnce(fold, fold(s[n]));
    }
  }

  lemma {:induction false} FoldedOnce(fold: char -> string, t: string)
    requires forall k :: 0 <= k < |t| ==> fold(t[k]) == [t[k]]
    ensures Fold(fold, t) == t
    decreases |t|
  {
    if t != "" {
      FoldedOnce(fold, t[..|t| - 1]);
      assert t == t[..|t| - 1] + [t[|t| - 1]];
    }
  }

  // ----- the text to search for, line by line -----

  /** The folded lines with their line breaks. */
  function Pieces(fold: char -> string, str: string): seq<string>
    decreases |str|
  {
    if str == "" then [] else var n := LineEnd(str, 0); [Fold(fold, str[..n])] + Pieces(fold, str[n..])
  }

  function Concat(ps: seq<string>): string {
    if ps == [] then "" else ps[0] + Concat(ps[1..])
  }

  lemma {:induction false} PiecesFold(fold: char -> string, isMark: char -> bool, str: string)
    requires Tame(fold, isMark)
    ensures Concat(Pieces(fold, str)) == Fold(fold, str) && AllPieces(fold, Pieces(fold, str))
    ensures |Pieces(fold, str)| == 1 && !Broken(Pieces(fold, str)[0]) <==> str != "" && '\n' !in str
    decreases |str|
  {
    if str != "" {
      var n := LineEnd(str, 0);
      var p := str[..n];
      assert str == p + str[n..];
      FoldSplit(fold, p, str[n..]);
      FirstPiece(str);
      PieceFolds(fold, isMark, p);
      FoldTwice(fold, isMark, p);
      PiecesFold(fold, isMark, str[n..]);
      assert Pieces(fold, str)[1..] == Pieces(fold, str[n..]);
      if Broken(p) {
        assert p[n - 1] == '\n' && p[n - 1] in str;
      } else {
        assert p == p[..n - 1] + [p[n - 1]] && p == str;
      }
    }
  }

  /** Each piece but the last ends with a line break, and all are folded. */
  ghost predicate AllPieces(fold: char -> string, ps: seq<string>) {
    ps == [] || (IsPiece(ps[0]) && Fold(fold, ps[0]) == ps[0] && (ps[1..] != [] ==> Broken(ps[0])) && AllPieces(fold, ps[1..]))
  }

  /** `breakup_string` */
  method BreakupString(fold: char -> string, str: string) returns (ps: seq<string>)
    ensures ps == Pieces(fold, str)
  {
    ps := [];
    var rest := str;
    while rest != ""
      invariant ps + Pieces(fold, rest) == Pieces(fold, str)
      decreases |rest|
    {
      var n := LineEnd(rest, 0);
      assert ps + Pieces(fold, rest) == ps + [Fold(fold, rest[..n])] + Pieces(fold, rest[n..]);
      ps := ps + [Fold(fold, rest[..n])];
      rest := rest[n..];
    }
  }

  // ----- one piece against one line -----

  /** A piece matches at the beginning of the text if and only if it does at the beginning of
      its first line; and with a line break it is all of that line. */
  lemma PieceInLine(fold: char -> string, isMark: char -> bool, s: string, p: string)
    requires Tame(fold, isMark) && s != "" && IsPiece(p)
    ensures var n := LineEnd(s, 0);
      && Fold(fold, s) == Fold(fold, s[..n]) + Fold(fold, s[n..])
      && (Begins(Fold(fold, s), p) <==> Begins(Fold(fold, s[..n]), p))
      && (Begins(Fold(fold, s), p) && Broken(p) ==> p == Fold(fold, s[..n]))
  {
    var n := LineEnd(s, 0);
    var line, rest := Fold(fold, s[..n]), Fold(fold, s[n..]);
    assert s == s[..n] + s[n..];
    FoldSplit(fold, s[..n], s[n..]);
    FirstPiece(s);
    PieceFolds(fold, isMark, s[..n]);
    assert s[n..] == "" ==> rest == "";
    if Begins(line + rest, p) {
      PieceFits(line, rest, p);
      assert p == (line + rest)[..|p|] == line[..|p|];
    }
  }

  lemma PieceFits(line: string, rest: string, p: string)
    requires IsPiece(line) && IsPiece(p) && (rest != "" ==> Broken(line)) && Begins(line + rest, p)
    ensures |p| <= |line| && (Broken(p) ==> |p| == |line|)
  {
    OnlyLast(line);
    OnlyLast(p);
    forall k | 0 <= k < |p| && k < |line| ensures p[k] == line[k] {
      assert p[k] == (line + rest)[k];
    }
  }

  /** The least position whose folded prefix reaches an exact one is that one. */
  lemma ReachedAt(fold: char -> string, s: string, n: nat, p: nat)
    requires Folding(fold) && n <= |s| && Reaches(fold, s, Folded(fold, s, n), p)
    ensures p == n
  {
    if p < n { FoldedGrows(fold, s, p, n); }
  }

  lemma FoldedFrom(fold: char -> string, s: string, a: nat, q: nat)
    requires a + q <= |s|
    ensures Folded(fold, s, a + q) == Folded(fold, s, a) + Folded(fold, s[a..], q)
  {
    assert s[..a + q] == s[..a] + s[a..][..q];
    FoldSplit(fold, s[..a], s[a..][..q]);
  }

  /** `p` is the least position from which on `count` folded characters are passed, or the
      end if there are not so many. */
  ghost predicate Passes(fold: char -> string, s: string, count: nat, p: nat) {
    && p <= |s| && (p == |s| || count <= Folded(fold, s, p))
    && forall q :: 0 <= q < p ==> Folded(fold, s, q) < count
  }

  /** `forward_chars_with_skipping` from the beginning. */
  method Forward(fold: char -> string, s: string, count: nat) returns (p: nat)
    requires Folding(fold)
    ensures Passes(fold, s, count, p)
    ensures p <= |s| && (count <= |Fold(fold, s)| ==> Reaches(fold, s, count, p))
  {
    p := ForwardChars(fold, s, 0, count, _ => false);
    forall q | 0 <= q <= |s| ensures Kept(fold, _ => false, s[0..q]) == Folded(fold, s, q) {
      NothingIgnored(fold, s[0..q]);
      assert s[0..q] == s[..q];
    }
    assert s[..|s|] == s;
    forall q | 0 <= q < p ensures Folded(fold, s, q) < count {
      assert Kept(fold, _ => false, s[0..q]) < count;
    }
  }

  // ----- lines after the first -----

  /** `lines_match` for lines after the first, where `s` is the rest of the buffer: they match
      if and only if the folded text goes on with them. */
  method MatchRest(fold: char -> string, isMark: char -> bool, s: string, lines: seq<string>) returns (r: Option<nat>)
    requires Tame(fold, isMark) && AllPieces(fold, lines)
    ensures r.Some? <==> Begins(Fold(fold, s), Concat(lines))
    ensures r.Some? ==> Reaches(fold, s, |Concat(lines)|, r.value)
    decreases lines
  {
    hide Tame, Fold, Reaches, Concat, AllPieces, IsPiece, Broken, Begins;
    if lines == [] {
      NothingReached(fold, s);
      return Some(0);
    }
    PiecesStep(fold, lines);
    TameFolds(fold, isMark);
    if s == "" {
      NothingLeft(fold, lines);
      return None;
    }
    PieceInLine(fold, isMark, s, lines[0]);
    // `utf8_caselessnmatch`
    if !(Begins(Fold(fold, s[..LineEnd(s, 0)]), Fold(fold, lines[0]))) {
      PrefixOf(lines[0], Concat(lines[1..]), Fold(fold, s));
      return None;
    }
    BeginsLength(Fold(fold, s), lines[0]);
    var next := Forward(fold, s, |lines[0]|);
    var rest := MatchRest(fold, isMark, s[next..], lines[1..]);
    PieceStep(fold, isMark, s, lines[0], Concat(lines[1..]), next, rest);
    match rest
    case None => r := None;
    case Some(n) => r := Some(next + n);
  }

  lemma NothingLeft(fold: char -> string, lines: seq<string>)
    requires lines != [] && AllPieces(fold, lines)
    ensures !Begins(Fold(fold, ""), Concat(lines))
  {
  }

  /** A line that matches, and the others after it. */
  lemma PieceStep(fold: char -> string, isMark: char -> bool, s: string, p: string, more: string, next: nat, rest: Option<nat>)
    requires Tame(fold, isMark) && s != "" && IsPiece(p) && (more != "" ==> Broken(p)) && next <= |s|
    requires Begins(Fold(fold, s), p) && Reaches(fold, s, |p|, next)
    requires rest.Some? <==> Begins(Fold(fold, s[next..]), more)
    requires rest.Some? ==> Reaches(fold, s[next..], |more|, rest.value)
    ensures rest.Some? <==> Begins(Fold(fold, s), p + more)
    ensures rest.Some? ==> Reaches(fold, s, |p + more|, next + rest.value)
  {
    hide Tame, Fold, IsPiece, Broken, LineEnd, Begins, Reaches;
    if more == "" {
      assert p + more == p;
      NothingReached(fold, s[next..]);
      ReachedNothing(fold, s[next..], rest.value);
    } else {
      var n := LineEnd(s, 0);
      TameFolds(fold, isMark);
      PieceInLine(fold, isMark, s, p);
      WholeLine(fold, s, n, p, next);
      GoesOn(fold, s, n, p, more);
      if rest.Some? { ReachesOn(fold, s, n, |more|, rest.value); }
    }
  }

  lemma BeginsLength(f: string, p: string)
    requires Begins(f, p)
    ensures |p| <= |f|
  {
  }

  lemma ReachedNothing(fold: char -> string, s: string, p: nat)
    requires Reaches(fold, s, 0, p)
    ensures p == 0
  {
    assert Folded(fold, s, 0) >= 0;
  }

  lemma PiecesStep(fold: char -> string, lines: seq<string>)
    requires lines != [] && AllPieces(fold, lines)
    ensures IsPiece(lines[0]) && Fold(fold, lines[0]) == lines[0] && AllPieces(fold, lines[1..]) && Concat(lines) == lines[0] + Concat(lines[1..])
    ensures if lines[1..] == [] then Concat(lines) == lines[0] else Broken(lines[0])
  {
    hide Fold, IsPiece, Broken;
    assert Concat([]) == "";
  }

  lemma TameFolds(fold: char -> string, isMark: char -> bool)
    requires Tame(fold, isMark)
    ensures Folding(fold)
  {
  }

  lemma NothingReached(fold: char -> string, s: string)
    ensures Begins(Fold(fold, s), Concat([])) && Reaches(fold, s, |Concat([])|, 0) && Concat([]) == ""
  {
  }

  lemma NothingFolds(fold: char -> string)
    ensures Fold(fold, "") == ""
  {
  }

  lemma PrefixOf(p: string, more: string, f: string)
    ensures Begins(f, p + more) ==> Begins(f, p)
  {
    if Begins(f, p + more) { assert p == (p + more)[..|p|] == f[..|p|]; }
  }

  /** The line of the text is the first one from there. */
  lemma {:induction false} LineFrom(text: string, start: nat)
    requires start < |text|
    ensures text[start..] != "" && LineEnd(text[start..], 0) == LineEnd(text, start) - start
    ensures text[start..][..LineEnd(text, start) - start] == text[start..LineEnd(text, start)]
  {
    var s, n, m := text[start..], LineEnd(text[start..], 0), LineEnd(text, start) - start;
    assert forall k :: 0 <= k < |s| ==> s[k] == text[start + k];
  }

  lemma WholeLine(fold: char -> string, s: string, n: nat, p: string, q: nat)
    requires Folding(fold) && n <= |s| && p == Fold(fold, s[..n]) && Reaches(fold, s, |p|, q)
    ensures q == n
  {
    ReachedAt(fold, s, n, q);
  }

  lemma GoesOn(fold: char -> string, s: string, n: nat, p: string, more: string)
    requires n <= |s| && p == Fold(fold, s[..n])
    ensures Begins(Fold(fold, s), p + more) <==> Begins(Fold(fold, s[n..]), more)
  {
    assert s == s[..n] + s[n..];
    FoldSplit(fold, s[..n], s[n..]);
    var f := Fold(fold, s[n..]);
    if Begins(p + f, p + more) {
      assert more == (p + more)[|p|..] && f[..|more|] == (p + f)[|p|..|p| + |more|];
    }
  }

  lemma ReachesOn(fold: char -> string, s: string, n: nat, count: nat, q: nat)
    requires Folding(fold) && n <= |s| && Reaches(fold, s[n..], count, q)
    ensures Reaches(fold, s, |Fold(fold, s[..n])| + count, n + q)
  {
    FoldedFrom(fold, s, n, q);
    forall k | 0 <= k < n + q ensures Folded(fold, s, k) < Folded(fold, s, n) + count {
      if k < n {
        FoldedGrows(fold, s, k, n);
      } else {
        FoldedFrom(fold, s, n, k - n);
      }
    }
  }

  // ----- the first line -----

  /** The text is found at `b`: the folded buffer goes on with the folded text from there,
      and after a text without line breaks no mark follows. */
  ghost predicate Found(fold: char -> string, isMark: char -> bool, text: string, str: string, b: nat)
    requires b <= |text|
  {
    var f, n := Fold(fold, text[b..]), Fold(fold, str);
    Begins(f, n) && ('\n' !in str ==> Unmarked(isMark, f, n))
  }

  /** Where a found text ends. */
  ghost predicate EndsAt(fold: char -> string, text: string, str: string, b: nat, e: nat) {
    b <= e <= |text| && Reaches(fold, text[b..], |Fold(fold, str)|, e - b)
  }

  /** Within a line: from there on the line is the rest of it. */
  lemma LineWithin(fold: char -> string, text: string, start: nat, b: nat)
    requires start < |text| && start <= b < LineEnd(text, start)
    ensures var n, k, line := LineEnd(text, start), b - start, text[start..LineEnd(text, start)];
      && text[b..] != "" && LineEnd(text[b..], 0) == n - b && text[b..][..n - b] == line[k..] && text[b..][n - b..] == text[n..]
      && Fold(fold, line) == Fold(fold, line[..k]) + Fold(fold, line[k..])
      && Fold(fold, text[b..]) == Fold(fold, line[k..]) + Fold(fold, text[n..])
  {
    var n, k, line := LineEnd(text, start), b - start, text[start..LineEnd(text, start)];
    assert text[b..] == line[k..] + text[n..] && line == line[..k] + line[k..];
    FoldSplit(fold, line[..k], line[k..]);
    FoldSplit(fold, line[k..], text[n..]);
    SameEnd(text, start, b);
    LineFrom(text, b);
  }

  lemma SameEnd(text: string, start: nat, b: nat)
    requires start < |text| && start <= b < LineEnd(text, start)
    ensures LineEnd(text, b) == LineEnd(text, start)
  {
  }

  function HeadPiece(fold: char -> string, str: string): string
    requires str != ""
  {
    Fold(fold, str[..LineEnd(str, 0)])
  }

  function TailPieces(fold: char -> string, str: string): seq<string>
    requires str != ""
  {
    Pieces(fold, str[LineEnd(str, 0)..])
  }

  lemma FirstOf(fold: char -> string, isMark: char -> bool, str: string)
    requires Tame(fold, isMark) && str != ""
    ensures Pieces(fold, str) != [] && Pieces(fold, str)[0] == HeadPiece(fold, str) && Pieces(fold, str)[1..] == TailPieces(fold, str)
    ensures IsPiece(HeadPiece(fold, str)) && AllPieces(fold, TailPieces(fold, str))
    ensures HeadPiece(fold, str) + Concat(TailPieces(fold, str)) == Fold(fold, str) && HeadPiece(fold, str)[0] == Fold(fold, str)[0]
    ensures Concat(TailPieces(fold, str)) != "" ==> Broken(HeadPiece(fold, str))
    ensures '\n' !in str <==> Concat(TailPieces(fold, str)) == "" && !Broken(HeadPiece(fold, str))
  {
    hide Tame;
    var ps := Pieces(fold, str);
    PiecesFold(fold, isMark, str);
    assert ps[1..] == TailPieces(fold, str);
    TailEmpty(fold, isMark, ps[1..]);
  }

  lemma TailEmpty(fold: char -> string, isMark: char -> bool, ps: seq<string>)
    requires AllPieces(fold, ps)
    ensures Concat(ps) == "" <==> ps == []
  {
  }

  lemma FoundUnmarked(fold: char -> string, isMark: char -> bool, text: string, str: string, b: nat)
    requires b <= |text| && Found(fold, isMark, text, str, b) && '\n' !in str
    ensures Unmarked(isMark, Fold(fold, text[b..]), Fold(fold, str))
  {
  }

  /** Where the text is found, the rest of the line begins with its first line. */
  lemma FoundTail(fold: char -> string, isMark: char -> bool, text: string, str: string, b: nat, tail: string)
    requires Tame(fold, isMark) && str != "" && b < |text| && tail == text[b..][..LineEnd(text[b..], 0)]
    requires Found(fold, isMark, text, str, b)
    ensures var p, f := HeadPiece(fold, str), Fold(fold, tail);
      Begins(f, p) && Unmarked(isMark, f, p) && (Broken(p) ==> p == f)
  {
    hide Tame, Fold, IsPiece, Broken, Concat, AllPieces, LineEnd;
    hide Pieces, HeadPiece, TailPieces, Begins, Unmarked, Found;
    FirstOf(fold, isMark, str);
    FoundBegins(fold, isMark, text, str, b);
    if '\n' !in str { FoundUnmarked(fold, isMark, text, str, b); }
    var ps, s := Pieces(fold, str), text[b..];
    PieceInLine(fold, isMark, s, ps[0]);
    FoundPart(isMark, Fold(fold, tail), Fold(fold, s[LineEnd(s, 0)..]), ps[0], Concat(ps[1..]), Broken(ps[0]));
  }

  /** The line at `start`, from `b` on. */
  function RestOfLine(text: string, start: nat, b: nat): string
    requires start < |text| && start <= b <= LineEnd(text, start)
  {
    text[start..LineEnd(text, start)][b - start..]
  }

  /** So it is found in the line. */
  lemma FoundInLine(fold: char -> string, isMark: char -> bool, text: string, start: nat, str: string, b: nat)
    requires Tame(fold, isMark) && start < |text| && str != "" && start <= b < LineEnd(text, start)
    requires Found(fold, isMark, text, str, b)
    ensures var line, p := text[start..LineEnd(text, start)], HeadPiece(fold, str);
      && Admissible(isMark, Fold(fold, line), p, Folded(fold, line, b - start))
      && (Broken(p) ==> p == Fold(fold, line[b - start..]))
  {
    hide Tame, Fold, Found, IsPiece, Broken, Concat, AllPieces, Admissible;
    var line, k := text[start..LineEnd(text, start)], b - start;
    LineWithin(fold, text, start, b);
    FoundTail(fold, isMark, text, str, b, line[k..]);
    PartOf(isMark, Fold(fold, line[..k]), Fold(fold, line[k..]), HeadPiece(fold, str));
  }

  lemma FoundPart(isMark: char -> bool, y: string, rest: string, p: string, more: string, broken: bool)
    requires Begins(y + rest, p + more) && (Begins(y + rest, p) <==> Begins(y, p)) && (broken && Begins(y, p) ==> p == y)
    requires !broken ==> more == "" && Unmarked(isMark, y + rest, p)
    ensures Begins(y, p) && Unmarked(isMark, y, p) && (broken ==> p == y)
  {
    PrefixOf(p, more, y + rest);
  }

  lemma PartOf(isMark: char -> bool, x: string, y: string, p: string)
    requires Begins(y, p) && Unmarked(isMark, y, p)
    ensures Admissible(isMark, x + y, p, |x|)
  {
    assert (x + y)[|x|..|x| + |p|] == y[..|p|];
  }

  /** And where its first line is found first, it begins, or is not in the line at all. */
  lemma FirstInLine(fold: char -> string, isMark: char -> bool, line: string, p: string, at: nat, k: nat)
    requires Tame(fold, isMark) && p != "" && Aligned(fold, line, p[0]) && Admissible(isMark, Fold(fold, line), p, at) && Reaches(fold, line, at, k)
    ensures k < |line| && Folded(fold, line, k) == at && Begins(Fold(fold, line[k..]), p)
    ensures Unmarked(isMark, Fold(fold, line[k..]), p)
  {
    hide Fold, Tame, Aligned, Admissible, Begins, Unmarked;
    TameFolds(fold, isMark);
    AdmissibleStarts(isMark, Fold(fold, line), p, at);
    AlignedBoundary(fold, line, p[0], at);
    BoundaryReached(fold, line, at, k);
    assert line == line[..k] + line[k..] && line[..|line|] == line;
    FoldSplit(fold, line[..k], line[k..]);
    AdmissiblePart(isMark, Fold(fold, line[..k]), Fold(fold, line[k..]), p);
  }

  lemma AdmissibleStarts(isMark: char -> bool, f: string, p: string, at: nat)
    requires p != "" && Admissible(isMark, f, p, at)
    ensures at < |f| && f[at] == p[0]
  {
    assert f[at] == f[at..at + |p|][0];
  }

  lemma AdmissiblePart(isMark: char -> bool, x: string, y: string, p: string)
    requires Admissible(isMark, x + y, p, |x|)
    ensures Begins(y, p) && Unmarked(isMark, y, p)
  {
    assert p == (x + y)[|x|..|x| + |p|] == y[..|p|];
  }

  /** The first place in the line at `start` where the text is found. */
  ghost predicate FirstFound(fold: char -> string, isMark: char -> bool, text: string, start: nat, str: string, r: Option<(nat, nat)>)
    requires start < |text|
  {
    match r
    case None => forall b :: start <= b < LineEnd(text, start) ==> !Found(fold, isMark, text, str, b)
    case Some((b, e)) =>
      && start <= b < LineEnd(text, start) && Found(fold, isMark, text, str, b) && EndsAt(fold, text, str, b, e)
      && forall c :: start <= c < b ==> !Found(fold, isMark, text, str, c)
  }

  /** In the line at `start` the first line of the text occurs at `at` of the folded line
      first; `b` is the least position that reaches the occurrence, and from `next` on the
      other lines are looked for. */
  ghost predicate HeadAt(fold: char -> string, isMark: char -> bool, text: string, start: nat, str: string, at: nat, b: nat, next: nat)
    requires start < |text| && str != ""
  {
    var line, p := text[start..LineEnd(text, start)], HeadPiece(fold, str);
    && Admissible(isMark, Fold(fold, line), p, at) && (forall i :: 0 <= i < at ==> !Admissible(isMark, Fold(fold, line), p, i))
    && start <= b <= next <= |text| && Reaches(fold, line, at, b - start) && Passes(fold, text[b..], |p|, next - b)
  }

  /** What `lines_match` gives: a match if and only if the first line of the text occurs in
      the line and the folded buffer goes on with the others from there on. */
  ghost predicate LineMatches(fold: char -> string, isMark: char -> bool, text: string, start: nat, str: string, r: Option<(nat, nat)>)
    requires start < |text| && str != ""
  {
    var more := Concat(TailPieces(fold, str));
    match r
    case None =>
      || (forall i :: 0 <= i ==> !Admissible(isMark, Fold(fold, text[start..LineEnd(text, start)]), HeadPiece(fold, str), i))
      || exists at: nat, b: nat, next: nat :: HeadAt(fold, isMark, text, start, str, at, b, next) && !Begins(Fold(fold, text[next..]), more)
    case Some((b, e)) =>
      exists at: nat, next: nat :: HeadAt(fold, isMark, text, start, str, at, b, next) && next <= e <= |text|
        && Begins(Fold(fold, text[next..]), more) && Reaches(fold, text[next..], |more|, e - next)
  }

  lemma HeadThere(fold: char -> string, isMark: char -> bool, text: string, start: nat, str: string, at: nat, b: nat, next: nat, rest: Option<nat>)
    requires start < |text| && str != "" && start <= b <= LineEnd(text, start) && b <= next <= |text|
    requires var line, p := text[start..LineEnd(text, start)], HeadPiece(fold, str);
      && Admissible(isMark, Fold(fold, line), p, at) && (forall i :: 0 <= i < at ==> !Admissible(isMark, Fold(fold, line), p, i))
      && Reaches(fold, line, at, b - start) && Passes(fold, text[b..], |p|, next - b)
    requires var more := Concat(TailPieces(fold, str));
      && (rest.Some? <==> Begins(Fold(fold, text[next..]), more))
      && (rest.Some? ==> rest.value <= |text| - next && Reaches(fold, text[next..], |more|, rest.value))
    ensures LineMatches(fold, isMark, text, start, str, if rest.Some? then Some((b, next + rest.value)) else None)
  {
    hide Fold, Admissible, Reaches, Passes, HeadPiece, TailPieces, Concat, Begins, LineEnd;
    assert HeadAt(fold, isMark, text, start, str, at, b, next);
  }

  lemma NoHead(fold: char -> string, isMark: char -> bool, text: string, start: nat, str: string)
    requires start < |text| && str != ""
    requires forall i :: 0 <= i ==> !Admissible(isMark, Fold(fold, text[start..LineEnd(text, start)]), HeadPiece(fold, str), i)
    ensures LineMatches(fold, isMark, text, start, str, None)
  {
  }

  /** `lines_match` */
  method MatchLines(fold: char -> string, isMark: char -> bool, text: string, start: nat, ghost str: string, lines: seq<string>)
    returns (r: Option<(nat, nat)>)
    requires Tame(fold, isMark) && start < |text| && str != "" && lines == Pieces(fold, str)
    ensures LineMatches(fold, isMark, text, start, str, r)
    ensures Aligned(fold, text, Fold(fold, str)[0]) ==> FirstFound(fold, isMark, text, start, str, r)
  {
    hide Tame, Fold, Found, Pieces, HeadPiece, TailPieces, Admissible, IsPiece, Broken, Concat, AllPieces, FirstFound, Aligned,
      LineMatches, Passes;
    FirstOf(fold, isMark, str);
    TameFolds(fold, isMark);
    PieceNotEmpty(lines[0]);
    var found, at := StrCaseStr(fold, isMark, text[start..LineEnd(text, start)], lines[0]);
    if found.None? {
      NoneFound(fold, isMark, text, start, str);
      NoHead(fold, isMark, text, start, str);
      return None;
    }
    var b := start + found.value;
    var tail := text[b..];
    var next := Forward(fold, tail, |lines[0]|);
    var rest := MatchRest(fold, isMark, tail[next..], lines[1..]);
    if Aligned(fold, text, Fold(fold, str)[0]) { FirstPlace(fold, isMark, text, start, str, at, b, tail, next, rest); }
    assert tail[next..] == text[b + next..];
    HeadThere(fold, isMark, text, start, str, at, b, b + next, rest);
    match rest
    case None => r := None;
    case Some(n) => r := Some((b, b + next + n));
  }

  lemma StartsThere(fold: char -> string, isMark: char -> bool, text: string, start: nat, p: string, at: nat, b: nat)
    requires Tame(fold, isMark) && start < |text| && start <= b <= LineEnd(text, start) && IsPiece(p) && Aligned(fold, text, p[0])
    requires var line := text[start..LineEnd(text, start)]; Admissible(isMark, Fold(fold, line), p, at) && Reaches(fold, line, at, b - start)
    ensures b < LineEnd(text, start) && Begins(Fold(fold, text[b..]), p)
    ensures Folded(fold, text[start..LineEnd(text, start)], b - start) == at
    ensures var tail := Fold(fold, RestOfLine(text, start, b)); Begins(tail, p) && Unmarked(isMark, tail, p) && (Broken(p) ==> p == tail)
  {
    var line := text[start..LineEnd(text, start)];
    PieceNotEmpty(p);
    AlignedLine(fold, text, start, LineEnd(text, start), p[0]);
    hide Tame, Fold, Admissible, IsPiece, Broken, Aligned, Reaches;
    FirstInLine(fold, isMark, line, p, at, b - start);
    LineWithin(fold, text, start, b);
    PieceInLine(fold, isMark, text[b..], p);
    PrefixLonger(p, Fold(fold, line[b - start..]), Fold(fold, text[LineEnd(text, start)..]));
  }

  /** What the first line found and the lines after it make together. */
  lemma FirstPlace(fold: char -> string, isMark: char -> bool, text: string, start: nat, str: string, at: nat, b: nat, tail: string, next: nat, rest: Option<nat>)
    requires Tame(fold, isMark) && start < |text| && str != "" && start <= b <= LineEnd(text, start) && tail == text[b..] && next <= |tail|
    requires Aligned(fold, text, Fold(fold, str)[0])
    requires var p, line := HeadPiece(fold, str), text[start..LineEnd(text, start)];
      && Admissible(isMark, Fold(fold, line), p, at) && Reaches(fold, line, at, b - start)
      && (forall i :: 0 <= i < at ==> !Admissible(isMark, Fold(fold, line), p, i))
      && (|p| <= |Fold(fold, tail)| ==> Reaches(fold, tail, |p|, next))
    requires var more := Concat(TailPieces(fold, str));
      && (rest.Some? <==> Begins(Fold(fold, tail[next..]), more))
      && (rest.Some? ==> Reaches(fold, tail[next..], |more|, rest.value))
    ensures FirstFound(fold, isMark, text, start, str, if rest.Some? then Some((b, b + next + rest.value)) else None)
  {
    hide Tame, Fold, Found, Pieces, HeadPiece, TailPieces, Admissible, IsPiece, Broken, Concat, AllPieces, FirstFound, Aligned, Reaches, Begins, LineEnd, Unmarked, RestOfLine, EndsAt, NotBetween;
    FirstOf(fold, isMark, str);
    var p, more := HeadPiece(fold, str), Concat(TailPieces(fold, str));
    StartsThere(fold, isMark, text, start, p, at, b);
    NoneBefore(fold, isMark, text, start, str, at, b);
    BeginsLength(Fold(fold, tail), p);
    PieceStep(fold, isMark, tail, p, more, next, rest);
    var e := if rest.Some? then b + next + rest.value else 0;
    if rest.Some? { EndThere(fold, text, str, b, next + rest.value); }
    if '\n' !in str {
      OneLine(fold, isMark, text, start, str, b, rest.Some?, e);
    } else {
      BreakInside(fold, isMark, str);
      MoreLines(fold, isMark, text, start, str, b, rest.Some?, e);
    }
  }

  lemma EndThere(fold: char -> string, text: string, str: string, b: nat, n: nat)
    requires b <= |text| && Reaches(fold, text[b..], |Fold(fold, str)|, n)
    ensures EndsAt(fold, text, str, b, b + n)
  {
  }

  /** The first line of a text with a line break ends with one. */
  lemma BreakInside(fold: char -> string, isMark: char -> bool, str: string)
    requires Tame(fold, isMark) && '\n' in str
    ensures Broken(HeadPiece(fold, str))
  {
    hide Tame, HeadPiece, TailPieces, Broken, Pieces, Concat;
    FirstOf(fold, isMark, str);
  }

  ghost predicate NotBetween(fold: char -> string, isMark: char -> bool, text: string, str: string, a: nat, b: nat)
    requires b <= |text|
  {
    forall c :: a <= c < b ==> !Found(fold, isMark, text, str, c)
  }

  lemma OneLine(fold: char -> string, isMark: char -> bool, text: string, start: nat, str: string, b: nat, found: bool, e: nat)
    requires Tame(fold, isMark) && start < |text| && str != "" && start <= b < LineEnd(text, start)
    requires Begins(Fold(fold, RestOfLine(text, start, b)), HeadPiece(fold, str))
    requires Unmarked(isMark, Fold(fold, RestOfLine(text, start, b)), HeadPiece(fold, str))
    requires '\n' !in str && (found <==> Begins(Fold(fold, text[b..]), Fold(fold, str))) && (found ==> EndsAt(fold, text, str, b, e))
    requires NotBetween(fold, isMark, text, str, start, b)
    ensures found && FirstFound(fold, isMark, text, start, str, Some((b, e)))
  {
    hide Tame, Fold, Pieces, HeadPiece, TailPieces, Reaches, AllPieces, IsPiece, Broken, Concat, Begins, LineEnd, Found, Unmarked, RestOfLine, EndsAt;
    FirstOf(fold, isMark, str);
    NoTail(HeadPiece(fold, str), Concat(TailPieces(fold, str)));
    LastLineFound(fold, isMark, text, start, str, b, HeadPiece(fold, str));
    FoundBegins(fold, isMark, text, str, b);
  }

  lemma NoTail(p: string, more: string)
    ensures more == "" ==> p + more == p
  {
  }

  lemma FoundBegins(fold: char -> string, isMark: char -> bool, text: string, str: string, b: nat)
    requires b <= |text| && Found(fold, isMark, text, str, b)
    ensures Begins(Fold(fold, text[b..]), Fold(fold, str))
  {
  }

  /** Wherever the text is found in the line, its first line is the rest of it. */
  ghost predicate EndsLine(fold: char -> string, isMark: char -> bool, text: string, start: nat, str: string, p: string)
    requires start < |text|
  {
    forall c :: start <= c < LineEnd(text, start) && Found(fold, isMark, text, str, c) ==>
      p == Fold(fold, RestOfLine(text, start, c))
  }

  lemma EachFound(fold: char -> string, isMark: char -> bool, text: string, start: nat, str: string)
    requires Tame(fold, isMark) && start < |text| && str != "" && Broken(HeadPiece(fold, str))
    ensures EndsLine(fold, isMark, text, start, str, HeadPiece(fold, str))
  {
    var p := HeadPiece(fold, str);
    hide Tame, Fold, Found, Pieces, HeadPiece, TailPieces, IsPiece, Broken;
    forall c | start <= c < LineEnd(text, start) && Found(fold, isMark, text, str, c)
      ensures p == Fold(fold, RestOfLine(text, start, c))
    {
      FoundInLine(fold, isMark, text, start, str, c);
    }
  }

  lemma MoreLines(fold: char -> string, isMark: char -> bool, text: string, start: nat, str: string, b: nat, found: bool, e: nat)
    requires Tame(fold, isMark) && start < |text| && str != "" && start <= b < LineEnd(text, start)
    requires '\n' in str && HeadPiece(fold, str) == Fold(fold, RestOfLine(text, start, b)) && Broken(HeadPiece(fold, str))
    requires (found <==> Begins(Fold(fold, text[b..]), Fold(fold, str))) && (found ==> EndsAt(fold, text, str, b, e))
    requires NotBetween(fold, isMark, text, str, start, b)
    ensures FirstFound(fold, isMark, text, start, str, if found then Some((b, e)) else None)
  {
    hide Tame, Fold, Found, Pieces, HeadPiece, TailPieces, Reaches, AllPieces, IsPiece, Broken, Concat, Begins, LineEnd, EndsLine, Unmarked, RestOfLine, EndsAt;
    var p := HeadPiece(fold, str);
    TameFolds(fold, isMark);
    FoundLines(fold, isMark, text, str, b);
    EachFound(fold, isMark, text, start, str);
    OnlyThere(fold, isMark, text, start, str, b, p);
  }

  lemma FoundLines(fold: char -> string, isMark: char -> bool, text: string, str: string, b: nat)
    requires b <= |text| && '\n' in str
    ensures Found(fold, isMark, text, str, b) <==> Begins(Fold(fold, text[b..]), Fold(fold, str))
  {
    hide Fold, Begins;
  }

  lemma AlignedLine(fold: char -> string, text: string, a: nat, b: nat, c: char)
    requires a <= b <= |text| && Aligned(fold, text, c)
    ensures Aligned(fold, text[a..b], c)
  {
    assert forall p :: 0 <= p < b - a ==> text[a..b][p] == text[a + p];
  }

  lemma PieceNotEmpty(p: string)
    requires IsPiece(p)
    ensures p != ""
  {
  }

  lemma NoneFound(fold: char -> string, isMark: char -> bool, text: string, start: nat, str: string)
    requires Tame(fold, isMark) && start < |text| && str != ""
    requires forall i :: 0 <= i ==> !Admissible(isMark, Fold(fold, text[start..LineEnd(text, start)]), HeadPiece(fold, str), i)
    ensures FirstFound(fold, isMark, text, start, str, None)
  {
    hide Tame, Fold, Found, Pieces, HeadPiece, TailPieces, Admissible;
    forall b | start <= b < LineEnd(text, start) ensures !Found(fold, isMark, text, str, b) {
      if Found(fold, isMark, text, str, b) { FoundInLine(fold, isMark, text, start, str, b); }
    }
  }

  lemma NoneBefore(fold: char -> string, isMark: char -> bool, text: string, start: nat, str: string, at: nat, b: nat)
    requires Tame(fold, isMark) && start < |text| && str != "" && start <= b < LineEnd(text, start)
    requires var line := text[start..LineEnd(text, start)];
      && Folded(fold, line, b - start) == at
      && forall i :: 0 <= i < at ==> !Admissible(isMark, Fold(fold, line), HeadPiece(fold, str), i)
    ensures NotBetween(fold, isMark, text, str, start, b)
  {
    hide Tame, Found, Pieces, HeadPiece, TailPieces, Admissible, Fold;
    TameFolds(fold, isMark);
    forall c | start <= c < b ensures !Found(fold, isMark, text, str, c) {
      if Found(fold, isMark, text, str, c) { FoundInLine(fold, isMark, text, start, str, c); }
      FoldedGrows(fold, text[start..LineEnd(text, start)], c - start, b - start);
    }
  }

  /** A text of one line, found in the line, is found in the buffer. */
  lemma LastLineFound(fold: char -> string, isMark: char -> bool, text: string, start: nat, str: string, b: nat, p: string)
    requires Tame(fold, isMark) && start < |text| && start <= b < LineEnd(text, start) && p == Fold(fold, str) && IsPiece(p)
    requires !Broken(p) <==> '\n' !in str
    requires var tail := Fold(fold, RestOfLine(text, start, b)); Begins(tail, p) && Unmarked(isMark, tail, p)
    ensures Found(fold, isMark, text, str, b)
  {
    hide Fold, Tame;
    var n := LineEnd(text, start);
    var tail := text[start..n][b - start..];
    LineWithin(fold, text, start, b);
    FirstPiece(text[b..]);
    PieceFolds(fold, isMark, tail);
    NothingFolds(fold);
    assert n == |text| ==> text[n..] == "";
    PrefixLonger(p, Fold(fold, tail), Fold(fold, text[n..]));
  }

  lemma PrefixLonger(p: string, x: string, y: string)
    requires Begins(x, p)
    ensures Begins(x + y, p) && (|p| < |x| ==> (x + y)[|p|] == x[|p|]) && (|p| == |x| ==> p == x)
  {
    assert p == x[..|p|];
  }

  /** A line with its break ends the line it is found in, so it is nowhere else in it. */
  lemma OnlyThere(fold: char -> string, isMark: char -> bool, text: string, start: nat, str: string, b: nat, p: string)
    requires Folding(fold) && start < |text| && start <= b < LineEnd(text, start)
    requires p == Fold(fold, RestOfLine(text, start, b)) && EndsLine(fold, isMark, text, start, str, p)
    ensures forall c :: b < c < LineEnd(text, start) ==> !Found(fold, isMark, text, str, c)
  {
    hide Found, Fold;
    var line := text[start..LineEnd(text, start)];
    forall c | b < c < LineEnd(text, start) ensures !Found(fold, isMark, text, str, c) {
      FoldedGrows(fold, line, b - start, c - start);
      LineWithin(fold, text, start, b);
      LineWithin(fold, text, start, c);
    }
  }

  // ----- the search -----

  /** What a search from `start` has to give, with or without a limit. */
  ghost predicate Searched(fold: char -> string, isMark: char -> bool, text: string, start: nat, str: string, limit: Option<nat>, r: Option<(nat, nat)>) {
    match r
    case None =>
      forall b, e :: start <= b <= |text| && FirstFrom(fold, isMark, text, start, str, b) && EndsAt(fold, text, str, b, e) ==>
        limit.Some? && limit.value < e
    case Some((b, e)) =>
      start <= b && FirstFrom(fold, isMark, text, start, str, b) && EndsAt(fold, text, str, b, e) && (limit.Some? ==> e <= limit.value)
  }

  ghost predicate FirstFrom(fold: char -> string, isMark: char -> bool, text: string, start: nat, str: string, b: nat) {
    b <= |text| && Found(fold, isMark, text, str, b) && forall c :: start <= c < b ==> !Found(fold, isMark, text, str, c)
  }

  /** A search from `iter` tries the rest of its line and then each line. */
  predicate Tried(text: string, iter: nat, s: nat) {
    iter <= s < |text| && (s == iter || text[s - 1] == '\n')
  }

  /** The first line that matches decides, and lines at or after the limit are not tried. */
  ghost predicate SearchedByLine(fold: char -> string, isMark: char -> bool, text: string, iter: nat, str: string,
                                 limit: Option<nat>, r: Option<(nat, nat)>)
    requires str != ""
  {
    if r.Some? then
      && (limit.Some? ==> r.value.1 <= limit.value)
      && exists s :: FirstLine(fold, isMark, text, iter, str, limit, s) && LineMatches(fold, isMark, text, s, str, r)
    else
      || (forall s: nat :: Tried(text, iter, s) && (limit.Some? ==> s < limit.value) ==> LineMatches(fold, isMark, text, s, str, None))
      || exists s, b, e :: FirstLine(fold, isMark, text, iter, str, limit, s) && LineMatches(fold, isMark, text, s, str, Some((b, e)))
                           && limit.Some? && limit.value < e
  }

  /** A line before the limit, none before it matching. */
  ghost predicate FirstLine(fold: char -> string, isMark: char -> bool, text: string, iter: nat, str: string, limit: Option<nat>, s: nat)
    requires str != ""
  {
    && Tried(text, iter, s) && (limit.Some? ==> s < limit.value)
    && forall t: nat :: Tried(text, iter, t) && t < s ==> LineMatches(fold, isMark, text, t, str, None)
  }

  lemma NextTried(text: string, iter: nat, s: nat)
    requires Tried(text, iter, s)
    ensures LineEnd(text, s) < |text| ==> Tried(text, iter, LineEnd(text, s))
    ensures forall t: nat :: Tried(text, iter, t) && t < LineEnd(text, s) ==> t <= s
  {
  }

  /** `gtk_source_iter_forward_search` without regard to case: the first place from `iter`
      on, if it does not end after the limit. */
  method ForwardSearch(fold: char -> string, isMark: char -> bool, text: string, iter: nat, str: string, limit: Option<nat>)
    returns (r: Option<(nat, nat)>)
    requires Tame(fold, isMark) && iter <= |text|
    ensures str != "" ==> SearchedByLine(fold, isMark, text, iter, str, limit, r)
    ensures str != "" && Aligned(fold, text, Fold(fold, str)[0]) ==> Searched(fold, isMark, text, iter, str, limit, r)
    ensures str == "" ==>
      r == if iter + 1 < |text| && (limit.Some? ==> iter + 1 < limit.value) then Some((iter + 1, iter + 1)) else None
  {
    hide Tame, Fold, Found, EndsAt, Pieces, HeadPiece, TailPieces, Aligned, FirstFound, LineMatches;
    if str == "" {
      return if iter + 1 < |text| && (limit.Some? ==> iter + 1 < limit.value) then Some((iter + 1, iter + 1)) else None;
    }
    NeedleFolds(fold, isMark, str);
    var lines := BreakupString(fold, str);
    var search := iter;
    while search < |text|
      invariant iter <= search <= |text| && (search < |text| ==> Tried(text, iter, search))
      invariant forall t: nat :: Tried(text, iter, t) && t < search ==> LineMatches(fold, isMark, text, t, str, None)
      invariant Aligned(fold, text, Fold(fold, str)[0]) ==> forall c :: iter <= c < search ==> !Found(fold, isMark, text, str, c)
    {
      if limit.Some? && limit.value <= search {
        EndsAfter(fold, isMark, text, str, limit.value);
        return None;
      }
      r := MatchLines(fold, isMark, text, search, str, lines);
      if Aligned(fold, text, Fold(fold, str)[0]) { LineSearched(fold, isMark, text, search, str, r); }
      if r.Some? {
        assert FirstLine(fold, isMark, text, iter, str, limit, search);
        assert LineMatches(fold, isMark, text, search, str, Some((r.value.0, r.value.1)));
        if limit.Some? && r.value.1 > limit.value {
          if Aligned(fold, text, Fold(fold, str)[0]) { OneEnd(fold, text, str, r.value.0, r.value.1); }
          r := None;
        }
        return;
      }
      NextTried(text, iter, search);
      search := LineEnd(text, search);
    }
    NotAtEnd(fold, isMark, text, str);
    r := None;
  }

  lemma NeedleFolds(fold: char -> string, isMark: char -> bool, str: string)
    requires Tame(fold, isMark) && str != ""
    ensures Fold(fold, str) != ""
  {
  }

  lemma LineSearched(fold: char -> string, isMark: char -> bool, text: string, start: nat, str: string, r: Option<(nat, nat)>)
    requires start < |text| && FirstFound(fold, isMark, text, start, str, r)
    ensures r.None? ==> forall b :: start <= b < LineEnd(text, start) ==> !Found(fold, isMark, text, str, b)
    ensures r.Some? ==> start <= r.value.0 <= |text| && Found(fold, isMark, text, str, r.value.0) && EndsAt(fold, text, str, r.value.0, r.value.1)
    ensures r.Some? ==> forall c :: start <= c < r.value.0 ==> !Found(fold, isMark, text, str, c)
  {
    hide Found, EndsAt;
  }

  /** A text that is not empty is not found at the end, and ends after its beginning. */
  lemma NotAtEnd(fold: char -> string, isMark: char -> bool, text: string, str: string)
    requires Tame(fold, isMark) && str != ""
    ensures !Found(fold, isMark, text, str, |text|)
  {
    assert text[|text|..] == "" && Fold(fold, "") == "";
    FoldedGrows(fold, str, 0, |str|);
    assert str[..|str|] == str;
  }

  lemma EndsAfter(fold: char -> string, isMark: char -> bool, text: string, str: string, n: nat)
    requires Tame(fold, isMark) && str != ""
    ensures forall b: nat, e: nat :: n <= b && EndsAt(fold, text, str, b, e) ==> n < e
  {
    FoldedGrows(fold, str, 0, |str|);
    assert str[..|str|] == str;
    forall b: nat, e: nat | n <= b && EndsAt(fold, text, str, b, e) ensures n < e {
      assert Folded(fold, text[b..], 0) == 0;
    }
  }

  lemma OneReach(fold: char -> string, s: string, n: nat, p: nat, q: nat)
    requires Reaches(fold, s, n, p) && Reaches(fold, s, n, q)
    ensures p == q
  {
    hide Folded;
  }

  lemma OneEnd(fold: char -> string, text: string, str: string, b: nat, e: nat)
    requires EndsAt(fold, text, str, b, e)
    ensures forall d: nat :: EndsAt(fold, text, str, b, d) ==> d == e
  {
    forall d: nat | EndsAt(fold, text, str, b, d) ensures d == e {
      OneReach(fold, text[b..], |Fold(fold, str)|, e - b, d - b);
    }
  }

  /** The range found folds to the text exactly if it ends on a character boundary. */
  lemma FoundIsExact(fold: char -> string, isMark: char -> bool, text: string, str: string, b: nat, e: nat)
    requires Tame(fold, isMark) && b <= |text| && Found(fold, isMark, text, str, b) && EndsAt(fold, text, str, b, e)
    ensures Fold(fold, text[b..e]) == Fold(fold, str) <==> Boundary(fold, text[b..], |Fold(fold, str)|)
  {
    var s, n := text[b..], |Fold(fold, str)|;
    assert text[b..e] == s[..e - b] && s == s[..e - b] + s[e - b..];
    FoldSplit(fold, s[..e - b], s[e - b..]);
    if Boundary(fold, s, n) {
      BoundaryReached(fold, s, n, e - b);
      assert Fold(fold, s)[..n] == Fold(fold, s[..e - b]);
    }
    if Fold(fold, text[b..e]) == Fold(fold, str) {
      assert Folded(fold, s, e - b) == n;
    }
  }

  /** That is so whenever the text has no line break, or ends with one, and folding is to a
      base and marks. */
  lemma FoundIsBoundary(fold: char -> string, isMark: char -> bool, text: string, str: string, b: nat)
    requires Tame(fold, isMark) && Decomposing(fold, isMark) && b <= |text| && str != "" && Found(fold, isMark, text, str, b)
    requires '\n' !in str || Broken(str)
    ensures Boundary(fold, text[b..], |Fold(fold, str)|)
  {
    hide Fold, Decomposing, Tame, Boundary;
    var s, n := text[b..], Fold(fold, str);
    if |n| == |Fold(fold, s)| {
      WholeIsBoundary(fold, s);
    } else if '\n' !in str {
      assert |n| < |Fold(fold, s)| && !isMark(Fold(fold, s)[|n|]);
      NoMarkIsBoundary(fold, isMark, s, |n|);
    } else {
      BreakEnds(fold, isMark, s, str);
    }
  }

  lemma WholeIsBoundary(fold: char -> string, s: string)
    ensures Boundary(fold, s, |Fold(fold, s)|)
  {
    assert s[..|s|] == s && Folded(fold, s, |s|) == |Fold(fold, s)|;
  }

  lemma BreakEnds(fold: char -> string, isMark: char -> bool, s: string, str: string)
    requires Tame(fold, isMark) && Broken(str) && Begins(Fold(fold, s), Fold(fold, str))
    ensures Boundary(fold, s, |Fold(fold, str)|)
  {
    var n, f := Fold(fold, str), Fold(fold, s);
    assert n == Fold(fold, str[..|str| - 1]) + fold('\n');
    assert f[|n| - 1] == n[|n| - 1] == '\n';
    NewlineAligned(fold, isMark, s);
    AlignedBoundary(fold, s, '\n', |n| - 1);
    var p :| 0 <= p <= |s| && Folded(fold, s, p) == |n| - 1;
    hide Fold;
    assert s[..|s|] == s;
    NewlineThere(fold, isMark, s, p);
  }

  lemma NewlineAligned(fold: char -> string, isMark: char -> bool, s: string)
    requires Tame(fold, isMark)
    ensures Aligned(fold, s, '\n')
  {
    forall p, k | 0 <= p < |s| && 0 < k < |fold(s[p])| ensures fold(s[p])[k] != '\n' {
      assert fold(s[p])[k] in fold(s[p]);
    }
  }

  lemma NewlineThere(fold: char -> string, isMark: char -> bool, s: string, p: nat)
    requires Tame(fold, isMark) && p < |s| && Folded(fold, s, p) < |Fold(fold, s)| && Fold(fold, s)[Folded(fold, s, p)] == '\n'
    ensures Folded(fold, s, p + 1) == Folded(fold, s, p) + 1
  {
    hide Fold;
    FoldedNext(fold, s, p);
    FoldBetween(fold, s, 0, p + 1);
    assert s[0..p + 1] == s[..p + 1] && s[..0] == "";
    assert fold(s[p])[0] == '\n' && fold(s[p])[0] in fold(s[p]);
  }

  // ----- an input whose match is not exact -----

  function Accented(c: char): string { if c == 'A' then "a~" else [c] }

  predicate IsTilde(c: char) { c == '~' }

  lemma AccentedIsTame()
    ensures Tame(Accented, IsTilde) && Decomposing(Accented, IsTilde)
  {
  }

  lemma AccentedNext(s: string, c: char)
    ensures Fold(Accented, s + [c]) == Fold(Accented, s) + Accented(c)
  {
    assert (s + [c])[..|s|] == s;
  }

  lemma AccentedFolds()
    ensures Fold(Accented, "") == "" && Fold(Accented, "a") == "a" && Fold(Accented, "A") == "a~" && Fold(Accented, "x") == "x"
    ensures Fold(Accented, "x\n") == "x\n" && Fold(Accented, "x\nA") == "x\na~" && Fold(Accented, "x\na") == "x\na"
  {
    NothingFolds(Accented);
    hide Fold;
    AccentedNext("", 'a');
    AccentedNext("", 'A');
    AccentedNext("", 'x');
    AccentedNext("x", '\n');
    AccentedNext("x\n", 'A');
    AccentedNext("x\n", 'a');
    assert "" + ['a'] == "a" && "" + ['A'] == "A" && "" + ['x'] == "x" && "x" + ['\n'] == "x\n";
    assert "x\n" + ['A'] == "x\nA" && "x\n" + ['a'] == "x\na";
  }

  lemma AccentedPositions()
    ensures Folded(Accented, "x\nA", 0) == 0 && Folded(Accented, "x\nA", 1) == 1
    ensures Folded(Accented, "x\nA", 2) == 2 && Folded(Accented, "x\nA", 3) == 4
  {
    AccentedFolds();
    hide Fold;
    var t := "x\nA";
    assert t[..0] == "" && t[..1] == "x" && t[..2] == "x\n" && t[..3] == t;
  }

  /** When the text goes on after a line break it need not be: the last line is compared
      without looking at what follows. */
  lemma LastLineLoose()
    ensures Tame(Accented, IsTilde) && Decomposing(Accented, IsTilde)
    ensures Found(Accented, IsTilde, "x\nA", "x\na", 0) && EndsAt(Accented, "x\nA", "x\na", 0, 3)
    ensures !Boundary(Accented, "x\nA"[0..], |Fold(Accented, "x\na")|) && !Found(Accented, IsTilde, "A", "a", 0)
  {
    AccentedIsTame();
    AccentedFolds();
    AccentedPositions();
    hide Fold, Folded, Tame, Decomposing;
    var t, n := "x\nA", "x\na";
    assert t[0..] == t && "A"[0..] == "A" && n[1] == '\n';
  }
}
