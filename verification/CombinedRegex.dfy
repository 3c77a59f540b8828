/** The combined regular expression of a context (`create_reg_all`) is only a speed-up of
    the search for the next transition (`next_segment`). */
module CombinedRegex {
  import opened Wrappers
  import opened Contexts
  import opened Language
  import opened Transitions

  function OwnEnd(lang: Language, c: Context): seq<Pattern>
    requires lang.Has(c)
  {
    if c.Child? && lang.Def(c).kind.Container? && lang.Def(c).hasEnd then [EndOf(c.definition.index, c.startText)] else []
  }

  /** The ends of the ancestors that may end the context, from the nearest on. */
  function AncestorEnds(lang: Language, c: Context): seq<Pattern>
    requires lang.Has(c)
  {
    if !lang.AncestorCanEnd(c) then []
    else (if lang.ExtendsParent(c) then [] else OwnEnd(lang, c.parent)) + AncestorEnds(lang, c.parent)
  }

  function ChildStarts(lang: Language, ds: seq<nat>): seq<Pattern> {
    if ds == [] then [] else ChildStart(lang, ds[0]) + ChildStarts(lang, ds[1..])
  }

  /** What one child adds: nothing for a container without a start. */
  function ChildStart(lang: Language, d: nat): seq<Pattern> {
    if |lang.definitions| <= d then []
    else if !lang.definitions[d].kind.Container? then [MatchOf(d)]
    else if lang.definitions[d].hasStart then [StartOf(d)]
    else []
  }

  /** The alternatives of the combined expression. */
  function Union(lang: Language, c: Context): seq<Pattern>
    requires lang.Has(c)
  {
    OwnEnd(lang, c) + AncestorEnds(lang, c) + ChildStarts(lang, lang.Def(c).children)
  }

  predicate AnyMatches(lang: Language, ps: seq<Pattern>, line: string, pos: nat) {
    exists i :: 0 <= i < |ps| && lang.matches(ps[i], line, |line|, pos).Some?
  }

  lemma MatchesAppend(lang: Language, a: seq<Pattern>, b: seq<Pattern>, line: string, pos: nat)
    ensures AnyMatches(lang, a + b, line, pos) <==> AnyMatches(lang, a, line, pos) || AnyMatches(lang, b, line, pos)
  {
    if AnyMatches(lang, a, line, pos) {
      var i :| 0 <= i < |a| && lang.matches(a[i], line, |line|, pos).Some?;
      assert (a + b)[i] == a[i];
    }
    if AnyMatches(lang, b, line, pos) {
      var i :| 0 <= i < |b| && lang.matches(b[i], line, |line|, pos).Some?;
      assert (a + b)[|a| + i] == b[i];
    }
  }

  lemma OwnEndMatches(lang: Language, c: Context, line: string, pos: nat)
    requires lang.Has(c) && lang.EndMatch(c, line, |line|, pos).Some?
    ensures AnyMatches(lang, OwnEnd(lang, c), line, pos)
  {
    assert OwnEnd(lang, c)[0] == EndOf(c.definition.index, c.startText);
  }

  lemma {:induction false} AncestorEndMatches(lang: Language, c: Context, line: string, pos: nat)
    requires lang.Has(c) && lang.AncestorEnd(c, line, pos).Some?
    ensures AnyMatches(lang, AncestorEnds(lang, c), line, pos)
    decreases c
  {
    var own := if lang.ExtendsParent(c) then [] else OwnEnd(lang, c.parent);
    MatchesAppend(lang, own, AncestorEnds(lang, c.parent), line, pos);
    if lang.AncestorEnd(c.parent, line, pos).Some? {
      AncestorEndMatches(lang, c.parent, line, pos);
    } else {
      OwnEndMatches(lang, c.parent, line, pos);
    }
  }

  lemma {:induction false} ChildMatches(lang: Language, c: Context, ds: seq<nat>, end: bool, first: bool, line: string, pos: nat)
    requires lang.Has(c) && c.IsContainer() && pos <= |line| && lang.Consuming()
    requires lang.ChildrenStep(c, ds, end, first, line, pos).Some?
    ensures AnyMatches(lang, ChildStarts(lang, ds), line, pos)
    decreases ds
  {
    MatchesAppend(lang, ChildStart(lang, ds[0]), ChildStarts(lang, ds[1..]), line, pos);
    if lang.ChildrenStep(c, ds[1..], end, first, line, pos).Some? {
      ChildMatches(lang, c, ds[1..], end, first, line, pos);
    } else {
      assert lang.ChildStep(c, ds[0], line, pos).Some?;
      assert lang.matches(ChildStart(lang, ds[0])[0], line, |line|, pos).Some?;
    }
  }

  /** Wherever something happens one of the alternatives matches. */
  lemma UnionCovers(lang: Language, c: Context, first: bool, line: string, pos: nat)
    requires lang.Has(c) && c.IsContainer() && pos <= |line| && lang.Consuming()
    requires lang.StepAt(c, first, line, pos).Some?
    ensures AnyMatches(lang, Union(lang, c), line, pos)
  {
    var starts := ChildStarts(lang, lang.Def(c).children);
    MatchesAppend(lang, OwnEnd(lang, c) + AncestorEnds(lang, c), starts, line, pos);
    MatchesAppend(lang, OwnEnd(lang, c), AncestorEnds(lang, c), line, pos);
    if lang.AncestorEnd(c, line, pos).Some? {
      AncestorEndMatches(lang, c, line, pos);
    } else if lang.EndMatch(c, line, |line|, pos).Some? {
      OwnEndMatches(lang, c, line, pos);
    } else {
      ChildMatches(lang, c, lang.Def(c).children, false, first, line, pos);
    }
  }

  /** A search for the combined expression: the position it stops at is not behind the
      first one where an alternative matches. */
  ghost predicate Searches(lang: Language, c: Context, line: string, search: nat -> Option<nat>)
    requires lang.Has(c)
  {
    forall pos: nat {:trigger search(pos)} :: pos <= |line| ==>
      match search(pos)
      case None => forall p :: pos <= p <= |line| ==> !AnyMatches(lang, Union(lang, c), line, p)
      case Some(q) => pos <= q <= |line| && forall p :: pos <= p < q ==> !AnyMatches(lang, Union(lang, c), line, p)
  }

  lemma {:induction false} SkipTo(lang: Language, c: Context, first: bool, line: string, pos: nat, q: nat)
    requires lang.Has(c) && c.IsContainer() && pos <= q <= |line| && lang.Consuming()
    requires forall p :: pos <= p < q ==> !AnyMatches(lang, Union(lang, c), line, p)
    ensures lang.NextStep(c, first, line, pos) == lang.NextStep(c, first, line, q)
    decreases q - pos
  {
    if pos < q {
      if lang.StepAt(c, first, line, pos).Some? { UnionCovers(lang, c, first, line, pos); }
      SkipTo(lang, c, first, line, pos + 1, q);
    }
  }

  /** The loop of `next_segment`: with the combined expression or without it, it finds what
      happens first. */
  method NextSegment(lang: Language, c: Context, first: bool, line: string, linePos: nat, regAll: Option<nat -> Option<nat>>)
    returns (r: Option<Step>)
    requires lang.Has(c) && c.IsContainer() && linePos <= |line| && lang.Consuming()
    requires regAll.Some? ==> Searches(lang, c, line, regAll.value)
    ensures IsNext(lang, c, first, line, linePos, r)
    ensures r == lang.NextStep(c, first, line, linePos)
  {
    hide IsNext;
    NextStepMeans(lang, c, first, line, linePos);
    var pos := linePos;
    while pos <= |line|
      invariant linePos <= pos <= |line| + 1
      invariant pos <= |line| ==> lang.NextStep(c, first, line, linePos) == lang.NextStep(c, first, line, pos)
      invariant pos > |line| ==> lang.NextStep(c, first, line, linePos) == None
      decreases |line| + 1 - pos
    {
      if regAll.Some? {
        var found := regAll.value(pos);
        if found.None? {
          NothingAhead(lang, c, first, line, pos);
          return None;
        }
        SkipTo(lang, c, first, line, pos, found.value);
        pos := found.value;
      }
      r := lang.StepAt(c, first, line, pos);
      if r.Some? {
        return;
      }
      pos := pos + 1;
    }
    r := None;
  }

  lemma NothingAhead(lang: Language, c: Context, first: bool, line: string, pos: nat)
    requires lang.Has(c) && c.IsContainer() && pos <= |line| && lang.Consuming()
    requires forall p :: pos <= p <= |line| ==> !AnyMatches(lang, Union(lang, c), line, p)
    ensures lang.NextStep(c, first, line, pos) == None
  {
    SkipTo(lang, c, first, line, pos, |line|);
    if lang.StepAt(c, first, line, |line|).Some? { UnionCovers(lang, c, first, line, |line|); }
  }
}
