/** What a step of the line analysis means: which context ends or starts at a position,
    said of the definitions, the matches and the path of the context alone. */
module Transitions {
  import opened Wrappers
  import opened Contexts
  import opened Language

  // ----- ends of ancestors -----

  /** `x` lies inside a context that may end in the middle of it. */
  predicate Yields(lang: Language, x: Context) {
    x.Child? && x.parent.Child? && lang.Known(x.definition) && !lang.definitions[x.definition.index].extendParent
  }

  /** The end of `t` may end `c`: on the path of `c` the context right below `t` does not
      extend its parent. */
  ghost predicate MayEnd(lang: Language, t: Context, c: Context) {
    exists x :: IsAncestor(x, c) && Yields(lang, x) && x.parent == t
  }

  /** The end pattern of `t` matches at `pos`. */
  predicate EndsHere(lang: Language, t: Context, line: string, pos: nat) {
    && t.Child? && lang.Known(t.definition)
    && lang.definitions[t.definition.index].kind.Container? && lang.definitions[t.definition.index].hasEnd
    && lang.matches(EndOf(t.definition.index, t.startText), line, |line|, pos).Some?
  }

  ghost predicate EndsAround(lang: Language, t: Context, c: Context, line: string, pos: nat) {
    MayEnd(lang, t, c) && EndsHere(lang, t, line, pos)
  }

  ghost predicate Interrupted(lang: Language, c: Context, line: string, pos: nat) {
    exists t :: EndsAround(lang, t, c, line, pos)
  }

  // ----- matches -----

  /** The match of `p` at `pos` is taken for `c` as [pos, m): whole, or cut where first an
      ancestor ends in the middle of it, if the pattern still matches when cut there. */
  ghost predicate Applies(lang: Language, c: Context, p: Pattern, line: string, pos: nat, m: nat) {
    var end := lang.matches(p, line, |line|, pos);
    && end.Some? && pos < m <= end.value
    && (forall k :: pos < k < m ==> !Interrupted(lang, c, line, k))
    && (m < end.value ==> Interrupted(lang, c, line, m) && lang.matches(p, line, m, pos).Some?)
  }

  /** In `c` a child of the definition `d` starts at `pos` and is the context `child`, its
      start or, of a simple one, the whole of it being [pos, m). */
  ghost predicate Starts(lang: Language, c: Context, d: nat, child: Context, line: string, pos: nat, m: nat)
    requires lang.Consuming()
  {
    && d < |lang.definitions|
    && child.Child? && child.parent == c && child.definition == DefinitionRef(d, lang.definitions[d].kind)
    && var def := lang.definitions[d];
       if def.kind.Container? then
         && def.hasStart && Applies(lang, child, StartOf(d), line, pos, m)
         && child.startText == (if def.hasEnd && def.endRefersToStart
                                then line[pos..lang.matches(StartOf(d), line, |line|, pos).value] else "")
       else
         Applies(lang, child, MatchOf(d), line, pos, m) && child.startText == ""
  }

  /** The child that the definition iterator yields as number `i` is allowed at `pos`, and
      starts there. */
  ghost predicate StartsAs(lang: Language, c: Context, i: nat, first: bool, line: string, pos: nat, child: Context, m: nat)
    requires lang.Has(c) && lang.Consuming()
  {
    && i < |lang.Def(c).children| && lang.Def(c).children[i] < |lang.definitions|
    && var d := lang.definitions[lang.Def(c).children[i]];
       && (d.extendParent || !EndsHere(lang, c, line, pos))
       && (first || !d.firstLineOnly)
       && Starts(lang, c, lang.Def(c).children[i], child, line, pos, m)
  }

  /** None of the first `n` children starts at `pos`. */
  ghost predicate NoneStarts(lang: Language, c: Context, n: nat, first: bool, line: string, pos: nat)
    requires lang.Has(c) && lang.Consuming()
  {
    forall i: nat, child, m: nat :: i < n ==> !StartsAs(lang, c, i, first, line, pos, child, m)
  }

  ghost predicate OwnEndApplies(lang: Language, c: Context, line: string, pos: nat, m: nat) {
    EndsHere(lang, c, line, pos) && Applies(lang, c, EndOf(c.definition.index, c.startText), line, pos, m)
  }

  // ----- where a step leads -----

  /** With the end of `x` its parent ends too. */
  predicate TakesParent(lang: Language, x: Context) {
    x.Child? && x.parent.Child? && lang.Known(x.definition) && lang.definitions[x.definition.index].endParent
  }

  /** Of `c` and its ancestors `r` is the nearest that does not take its parent along. */
  ghost predicate Outlasts(lang: Language, r: Context, c: Context) {
    && IsAncestor(r, c) && !TakesParent(lang, r)
    && forall x :: IsAncestor(x, c) && IsAncestor(r, x) && x != r ==> TakesParent(lang, x)
  }

  /** The state after a child of `c` has started: the child, if it is a container;
      otherwise `c` or, when the child takes `c` along, what is left above. */
  ghost predicate LeadsOn(lang: Language, c: Context, child: Context, next: Context) {
    if child.IsContainer() then next == child
    else if TakesParent(lang, child) then c.Child? && Outlasts(lang, next, c.parent)
    else next == c
  }

  /** The state after the own end of `c`: the parent of the last context that ends. */
  ghost predicate LeadsOut(lang: Language, c: Context, next: Context) {
    exists top :: Outlasts(lang, top, c) && top.Child? && next == top.parent
  }

  // ----- steps -----

  ghost predicate IsFirstChild(lang: Language, c: Context, i: nat, first: bool, line: string, s: Step)
    requires lang.Has(c) && lang.Consuming()
  {
    && s.child.Some? && StartsAs(lang, c, i, first, line, s.at, s.child.value, s.to)
    && NoneStarts(lang, c, i, first, line, s.at)
    && LeadsOn(lang, c, s.child.value, s.next)
  }

  /** In state `c` the step `s` is what happens at its place: the outermost of the
      ancestors that end there becomes the state; without one, the first child that is
      allowed and starts there does; without one, the end of `c` itself is taken. */
  ghost predicate Happens(lang: Language, c: Context, first: bool, line: string, s: Step)
    requires lang.Has(c) && lang.Consuming()
  {
    if Interrupted(lang, c, line, s.at) then
      && s.to == s.at && s.child.None? && EndsAround(lang, s.next, c, line, s.at)
      && forall t :: EndsAround(lang, t, c, line, s.at) ==> IsAncestor(s.next, t)
    else if !NoneStarts(lang, c, |lang.Def(c).children|, first, line, s.at) then
      exists i: nat :: IsFirstChild(lang, c, i, first, line, s)
    else
      s.child.None? && OwnEndApplies(lang, c, line, s.at, s.to) && LeadsOut(lang, c, s.next)
  }

  /** Nothing happens at `pos`. */
  ghost predicate Quiet(lang: Language, c: Context, first: bool, line: string, pos: nat)
    requires lang.Has(c) && lang.Consuming()
  {
    && !Interrupted(lang, c, line, pos)
    && NoneStarts(lang, c, |lang.Def(c).children|, first, line, pos)
    && forall m: nat :: !OwnEndApplies(lang, c, line, pos, m)
  }

  /** `r` is what happens first in state `c` from `pos` on, None if nothing does. */
  ghost predicate IsNext(lang: Language, c: Context, first: bool, line: string, pos: nat, r: Option<Step>)
    requires lang.Has(c) && lang.Consuming()
  {
    && (forall q :: pos <= q < (if r.Some? then r.value.at else |line| + 1) ==> Quiet(lang, c, first, line, q))
    && (r.Some? ==> pos <= r.value.at <= |line| && Happens(lang, c, first, line, r.value))
  }

  // ----- the ends of ancestors are found -----

  lemma {:induction false} ParentAbove(x: Context, c: Context)
    requires IsAncestor(x, c) && x.Child?
    ensures IsAncestor(x.parent, c) && x.Depth() <= c.Depth()
  {
    if x == c { assert IsAncestor(c.parent, c.parent); } else { ParentAbove(x, c.parent); }
  }

  lemma {:induction false} ExtendingAll(lang: Language, c: Context, x: Context)
    requires lang.Has(c) && lang.AllAncestorsExtend(c) && lang.ExtendsParent(c) && IsAncestor(x, c)
    ensures !Yields(lang, x)
  {
    if x != c { ExtendingAll(lang, c.parent, x); }
  }

  /** Whether some ancestor may end the context is what ANCESTOR_CAN_END_CONTEXT says. */
  lemma {:induction false} CanEndMeans(lang: Language, c: Context)
    requires lang.Has(c)
    ensures lang.AncestorCanEnd(c) <==> exists t :: MayEnd(lang, t, c)
  {
    if lang.AncestorCanEnd(c) {
      SomeYields(lang, c);
      var x :| IsAncestor(x, c) && Yields(lang, x);
      assert MayEnd(lang, x.parent, c);
    } else if exists t :: MayEnd(lang, t, c) {
      var x :| IsAncestor(x, c) && Yields(lang, x);
      if lang.HasGrandparent(c) { ExtendingAll(lang, c, x); } else { YieldsBelow(lang, x, c); }
    }
  }

  lemma {:induction false} YieldsBelow(lang: Language, x: Context, c: Context)
    requires IsAncestor(x, c) && Yields(lang, x)
    ensures lang.HasGrandparent(c)
  {
    if x != c { YieldsBelow(lang, x, c.parent); }
  }

  lemma {:induction false} SomeYields(lang: Language, c: Context)
    requires lang.Has(c) && (!lang.ExtendsParent(c) || !lang.AllAncestorsExtend(c))
    ensures exists x :: IsAncestor(x, c) && Yields(lang, x)
  {
    if !lang.ExtendsParent(c) {
      assert IsAncestor(c, c) && Yields(lang, c);
    } else {
      SomeYields(lang, c.parent);
      var x :| IsAncestor(x, c.parent) && Yields(lang, x);
      assert IsAncestor(x, c);
    }
  }

  /** The outermost ancestor that may end the context and ends at `pos` is found. */
  lemma {:induction false} AncestorEndMeans(lang: Language, c: Context, line: string, pos: nat)
    requires lang.Has(c) && pos <= |line|
    ensures lang.AncestorEnd(c, line, pos).Some? <==> Interrupted(lang, c, line, pos)
    ensures lang.AncestorEnd(c, line, pos).Some? ==> EndsAround(lang, lang.AncestorEnd(c, line, pos).value, c, line, pos)
    ensures forall t :: EndsAround(lang, t, c, line, pos) ==> IsAncestor(lang.AncestorEnd(c, line, pos).GetOr(c), t)
  {
    CanEndMeans(lang, c);
    if lang.AncestorCanEnd(c) {
      AncestorEndMeans(lang, c.parent, line, pos);
      AroundParent(lang, c, line, pos);
      EndMatchMeans(lang, c.parent, line, pos);
      assert Yields(lang, c) <==> !lang.ExtendsParent(c);
      assert lang.AncestorEnd(c, line, pos).Some? ==> EndsAround(lang, lang.AncestorEnd(c, line, pos).value, c, line, pos);
    } else {
      assert forall t :: EndsAround(lang, t, c, line, pos) ==> MayEnd(lang, t, c);
    }
  }

  lemma EndMatchMeans(lang: Language, c: Context, line: string, pos: nat)
    requires lang.Has(c)
    ensures EndsHere(lang, c, line, pos) <==> lang.EndMatch(c, line, |line|, pos).Some?
  {
  }

  /** An ancestor ends around `c` if it ends around the parent or is the parent and not
      extended. */
  lemma AroundParent(lang: Language, c: Context, line: string, pos: nat)
    requires lang.Has(c) && c.Child?
    ensures forall t :: EndsAround(lang, t, c, line, pos) <==>
      EndsAround(lang, t, c.parent, line, pos) || (Yields(lang, c) && t == c.parent && EndsHere(lang, t, line, pos))
    ensures forall t :: EndsAround(lang, t, c.parent, line, pos) ==> IsAncestor(t, c.parent)
  {
    forall t ensures MayEnd(lang, t, c) <==> MayEnd(lang, t, c.parent) || (Yields(lang, c) && t == c.parent) {
      if MayEnd(lang, t, c.parent) {
        var x :| IsAncestor(x, c.parent) && Yields(lang, x) && x.parent == t;
        assert IsAncestor(x, c);
      }
      if Yields(lang, c) && t == c.parent { assert IsAncestor(c, c); }
    }
    forall t | MayEnd(lang, t, c.parent) ensures IsAncestor(t, c.parent) {
      var x :| IsAncestor(x, c.parent) && Yields(lang, x) && x.parent == t;
      ParentAbove(x, c.parent);
    }
  }

  // ----- matches are cut where they should be -----

  lemma {:induction false} FirstEndMeans(lang: Language, c: Context, line: string, from: nat, end: nat)
    requires lang.Has(c) && from <= end <= |line|
    ensures var k := lang.FirstAncestorEnd(c, line, from, end);
      && (forall q :: from <= q < k ==> !Interrupted(lang, c, line, q))
      && (k < end ==> Interrupted(lang, c, line, k))
    decreases end - from
  {
    AncestorEndMeans(lang, c, line, from);
    if from < end && !Interrupted(lang, c, line, from) { FirstEndMeans(lang, c, line, from + 1, end); }
  }

  lemma NeverInterrupted(lang: Language, c: Context, line: string)
    requires lang.Has(c) && !lang.AncestorCanEnd(c)
    ensures forall q :: !Interrupted(lang, c, line, q)
  {
    CanEndMeans(lang, c);
    forall q, t ensures !EndsAround(lang, t, c, line, q) {
      assert !MayEnd(lang, t, c);
    }
  }

  lemma AppliesOnce(lang: Language, c: Context, p: Pattern, line: string, pos: nat, m: nat, n: nat)
    requires Applies(lang, c, p, line, pos, m) && Applies(lang, c, p, line, pos, n)
    ensures m == n
  {
  }

  lemma CutMeans(lang: Language, c: Context, p: Pattern, line: string, pos: nat, m: nat)
    requires lang.Has(c) && lang.Consuming() && lang.matches(p, line, |line|, pos).Some?
    ensures Applies(lang, c, p, line, pos, m) <==>
            lang.CutMatch(c, p, line, pos, lang.matches(p, line, |line|, pos).value) == Some(m)
  {
    var end := lang.matches(p, line, |line|, pos).value;
    if !lang.AncestorCanEnd(c) {
      NeverInterrupted(lang, c, line);
    } else {
      FirstEndMeans(lang, c, line, pos + 1, end);
      var k := lang.FirstAncestorEnd(c, line, pos + 1, end);
      assert Applies(lang, c, p, line, pos, m) ==> m == k;
    }
  }

  // ----- the parents that end along -----

  lemma {:induction false} AncestorDepth(a: Context, c: Context)
    requires IsAncestor(a, c)
    ensures a.Depth() <= c.Depth() && (a.Depth() == c.Depth() ==> a == c)
  {
    if a != c { AncestorDepth(a, c.parent); }
  }

  lemma {:induction false} ClimbMeans(lang: Language, c: Context)
    requires lang.Has(c)
    ensures Outlasts(lang, lang.Climb(c), c)
  {
    if lang.EndsParent(c) {
      ClimbMeans(lang, c.parent);
      AncestorDepth(lang.Climb(c), c.parent);
      forall x | IsAncestor(x, c) && IsAncestor(lang.Climb(c), x) && x != lang.Climb(c) ensures TakesParent(lang, x) {
        assert x == c || IsAncestor(x, c.parent);
      }
    } else {
      forall x | IsAncestor(x, c) && IsAncestor(c, x) ensures x == c {
        AncestorDepth(x, c);
        AncestorDepth(c, x);
      }
    }
  }

  lemma {:induction false} TargetMeans(lang: Language, c: Context)
    requires lang.Has(c) && c.Child?
    ensures lang.Climb(c).Child? && lang.EndTarget(c) == lang.Climb(c).parent
  {
    if lang.EndsParent(c) { TargetMeans(lang, c.parent); }
  }

  lemma OutlastsOnce(lang: Language, r: Context, q: Context, c: Context)
    requires Outlasts(lang, r, c) && Outlasts(lang, q, c)
    ensures r == q
  {
    Comparable(r, q, c);
  }

  lemma {:induction false} Comparable(r: Context, q: Context, c: Context)
    requires IsAncestor(r, c) && IsAncestor(q, c)
    ensures IsAncestor(r, q) || IsAncestor(q, r)
  {
    if r != c && q != c { Comparable(r, q, c.parent); }
  }

  // ----- one child -----

  lemma ChildMeans(lang: Language, c: Context, d: nat, line: string, pos: nat, child: Context, m: nat)
    requires lang.Has(c) && c.IsContainer() && pos <= |line| && lang.Consuming()
    ensures Starts(lang, c, d, child, line, pos, m) <==>
      && lang.ChildStep(c, d, line, pos).Some?
      && lang.ChildStep(c, d, line, pos).value.child == Some(child) && lang.ChildStep(c, d, line, pos).value.to == m
  {
    if d < |lang.definitions| {
      var def := lang.definitions[d];
      var p := if def.kind.Container? then StartOf(d) else MatchOf(d);
      if lang.matches(p, line, |line|, pos).Some? {
        var end := lang.matches(p, line, |line|, pos).value;
        var text := if def.kind.Container? && def.hasEnd && def.endRefersToStart then line[pos..end] else "";
        CutMeans(lang, Child(c, DefinitionRef(d, def.kind), text), p, line, pos, m);
      }
    }
  }

  lemma ChildLeadsOn(lang: Language, c: Context, d: nat, line: string, pos: nat)
    requires lang.Has(c) && c.IsContainer() && pos <= |line| && lang.Consuming()
    requires lang.ChildStep(c, d, line, pos).Some?
    ensures var s := lang.ChildStep(c, d, line, pos).value; LeadsOn(lang, c, s.child.value, s.next)
  {
    var s := lang.ChildStep(c, d, line, pos).value;
    if c.Child? { ClimbMeans(lang, c.parent); }
  }

  // ----- the children in their order -----

  function ChildrenFrom(lang: Language, c: Context, k: nat, first: bool, line: string, pos: nat): Option<Step>
    requires lang.Has(c) && c.IsContainer() && pos <= |line| && lang.Consuming() && k <= |lang.Def(c).children|
  {
    lang.ChildrenStep(c, lang.Def(c).children[k..], EndsHere(lang, c, line, pos), first, line, pos)
  }

  predicate Allowed(lang: Language, c: Context, k: nat, first: bool, line: string, pos: nat)
    requires lang.Has(c) && k < |lang.Def(c).children|
  {
    lang.Def(c).children[k] < |lang.definitions| ==>
      && (lang.definitions[lang.Def(c).children[k]].extendParent || !EndsHere(lang, c, line, pos))
      && (first || !lang.definitions[lang.Def(c).children[k]].firstLineOnly)
  }

  lemma TryChild(lang: Language, c: Context, k: nat, first: bool, line: string, pos: nat)
    requires lang.Has(c) && c.IsContainer() && pos <= |line| && lang.Consuming() && k < |lang.Def(c).children|
    ensures ChildrenFrom(lang, c, k, first, line, pos) ==
            if Allowed(lang, c, k, first, line, pos) && lang.ChildStep(c, lang.Def(c).children[k], line, pos).Some?
            then lang.ChildStep(c, lang.Def(c).children[k], line, pos)
            else ChildrenFrom(lang, c, k + 1, first, line, pos)
  {
    hide Language.ChildStep, EndsHere;
    var ds := lang.Def(c).children;
    assert ds[k..][0] == ds[k] && ds[k..][1..] == ds[k + 1..];
  }

  lemma TriedChild(lang: Language, c: Context, k: nat, first: bool, line: string, pos: nat)
    requires lang.Has(c) && c.IsContainer() && pos <= |line| && lang.Consuming() && k < |lang.Def(c).children|
    requires NoneStarts(lang, c, k, first, line, pos)
    ensures var r := lang.ChildStep(c, lang.Def(c).children[k], line, pos);
      if Allowed(lang, c, k, first, line, pos) && r.Some? then IsFirstChild(lang, c, k, first, line, r.value)
      else NoneStarts(lang, c, k + 1, first, line, pos)
  {
    hide Language.ChildStep, EndsHere, LeadsOn, Starts, Language.Has, Language.Consuming;
    var d := lang.Def(c).children[k];
    forall child, m: nat
      ensures Starts(lang, c, d, child, line, pos, m) <==>
        && lang.ChildStep(c, d, line, pos).Some?
        && lang.ChildStep(c, d, line, pos).value.child == Some(child) && lang.ChildStep(c, d, line, pos).value.to == m
    {
      ChildMeans(lang, c, d, line, pos, child, m);
    }
    if lang.ChildStep(c, d, line, pos).Some? {
      ChildLeadsOn(lang, c, d, line, pos);
      KnownChild(lang, c, d, line, pos);
    }
  }

  lemma KnownChild(lang: Language, c: Context, d: nat, line: string, pos: nat)
    requires lang.Has(c) && c.IsContainer() && pos <= |line| && lang.Consuming()
    requires lang.ChildStep(c, d, line, pos).Some?
    ensures d < |lang.definitions|
  {
  }

  lemma {:induction false} ChildrenMean(lang: Language, c: Context, k: nat, first: bool, line: string, pos: nat)
    requires lang.Has(c) && c.IsContainer() && pos <= |line| && lang.Consuming() && k <= |lang.Def(c).children|
    requires NoneStarts(lang, c, k, first, line, pos)
    ensures match ChildrenFrom(lang, c, k, first, line, pos)
      case Some(s) => s.at == pos && exists i: nat :: i < |lang.Def(c).children| && IsFirstChild(lang, c, i, first, line, s)
      case None => NoneStarts(lang, c, |lang.Def(c).children|, first, line, pos)
    decreases |lang.Def(c).children| - k
  {
    hide Language.ChildStep, NoneStarts, IsFirstChild, Allowed, Language.Has, Language.Consuming;
    if k < |lang.Def(c).children| {
      TryChild(lang, c, k, first, line, pos);
      TriedChild(lang, c, k, first, line, pos);
      if Allowed(lang, c, k, first, line, pos) && lang.ChildStep(c, lang.Def(c).children[k], line, pos).Some? {
        assert IsFirstChild(lang, c, k, first, line, ChildrenFrom(lang, c, k, first, line, pos).value);
      } else {
        ChildrenMean(lang, c, k + 1, first, line, pos);
      }
    } else {
      NoMoreChildren(lang, c, first, line, pos);
    }
  }

  lemma NoMoreChildren(lang: Language, c: Context, first: bool, line: string, pos: nat)
    requires lang.Has(c) && c.IsContainer() && pos <= |line| && lang.Consuming()
    ensures ChildrenFrom(lang, c, |lang.Def(c).children|, first, line, pos) == None
  {
  }

  // ----- steps -----

  lemma StepAtMeans(lang: Language, c: Context, first: bool, line: string, pos: nat)
    requires lang.Has(c) && c.IsContainer() && pos <= |line| && lang.Consuming()
    ensures match lang.StepAt(c, first, line, pos)
      case Some(s) => s.at == pos && Happens(lang, c, first, line, s)
      case None => Quiet(lang, c, first, line, pos)
  {
    AncestorEndMeans(lang, c, line, pos);
    EndMatchMeans(lang, c, line, pos);
    ChildrenMean(lang, c, 0, first, line, pos);
    assert lang.Def(c).children[0..] == lang.Def(c).children;
    if EndsHere(lang, c, line, pos) {
      ClimbMeans(lang, c);
      TargetMeans(lang, c);
      forall m: nat { CutMeans(lang, c, EndOf(c.definition.index, c.startText), line, pos, m); }
    }
  }

  /** No two different steps happen at one place: what a step is said to be determines it. */
  lemma HappensOnce(lang: Language, c: Context, first: bool, line: string, s: Step, t: Step)
    requires lang.Has(c) && lang.Consuming() && s.at == t.at
    requires Happens(lang, c, first, line, s) && Happens(lang, c, first, line, t)
    ensures s == t
  {
    if Interrupted(lang, c, line, s.at) {
      AncestorDepth(s.next, t.next);
      AncestorDepth(t.next, s.next);
    } else if !NoneStarts(lang, c, |lang.Def(c).children|, first, line, s.at) {
      var i: nat :| IsFirstChild(lang, c, i, first, line, s);
      var j: nat :| IsFirstChild(lang, c, j, first, line, t);
      assert i == j;
      StartsOnce(lang, c, lang.Def(c).children[i], line, s.at, s.child.value, s.to, t.child.value, t.to);
      if c.Child? && !s.child.value.IsContainer() && TakesParent(lang, s.child.value) {
        OutlastsOnce(lang, s.next, t.next, c.parent);
      }
    } else {
      AppliesOnce(lang, c, EndOf(c.definition.index, c.startText), line, s.at, s.to, t.to);
      var top :| Outlasts(lang, top, c) && top.Child? && s.next == top.parent;
      var other :| Outlasts(lang, other, c) && other.Child? && t.next == other.parent;
      OutlastsOnce(lang, top, other, c);
    }
  }

  lemma StartsOnce(lang: Language, c: Context, d: nat, line: string, pos: nat, child: Context, m: nat, other: Context, n: nat)
    requires lang.Consuming() && Starts(lang, c, d, child, line, pos, m) && Starts(lang, c, d, other, line, pos, n)
    ensures child == other && m == n
  {
    AppliesOnce(lang, child, if lang.definitions[d].kind.Container? then StartOf(d) else MatchOf(d), line, pos, m, n);
  }

  lemma {:induction false} NextStepMeans(lang: Language, c: Context, first: bool, line: string, pos: nat)
    requires lang.Has(c) && c.IsContainer() && pos <= |line| && lang.Consuming()
    ensures IsNext(lang, c, first, line, pos, lang.NextStep(c, first, line, pos))
    decreases |line| - pos
  {
    hide Language.StepAt, Happens, Quiet, Language.Has, Language.Consuming;
    StepAtMeans(lang, c, first, line, pos);
    if lang.StepAt(c, first, line, pos).None? && pos < |line| { NextStepMeans(lang, c, first, line, pos + 1); }
  }

  lemma HappeningIsNotQuiet(lang: Language, c: Context, first: bool, line: string, s: Step)
    requires lang.Has(c) && lang.Consuming() && Happens(lang, c, first, line, s)
    ensures !Quiet(lang, c, first, line, s.at)
  {
  }

  lemma NextOnce(lang: Language, c: Context, first: bool, line: string, pos: nat, r: Option<Step>, q: Option<Step>)
    requires lang.Has(c) && lang.Consuming()
    requires IsNext(lang, c, first, line, pos, r) && IsNext(lang, c, first, line, pos, q)
    ensures r == q
  {
    hide Happens, Quiet;
    if r.Some? { HappeningIsNotQuiet(lang, c, first, line, r.value); }
    if q.Some? { HappeningIsNotQuiet(lang, c, first, line, q.value); }
    if r.Some? && q.Some? { HappensOnce(lang, c, first, line, r.value, q.value); }
  }

  // ----- the end of a line -----

  predicate EndsWithLine(lang: Language, x: Context) {
    x.Child? && lang.Known(x.definition) && lang.definitions[x.definition.index].endAtLineEnd
  }

  /** The end of the line ends `x`: every context from `c` up to below `x` ends with the
      line as well or may be ended by an ancestor. */
  ghost predicate LineEnds(lang: Language, x: Context, c: Context) {
    && IsAncestor(x, c) && EndsWithLine(lang, x)
    && forall y :: IsAncestor(y, c) && IsAncestor(x, y) && y != x ==> EndsWithLine(lang, y) || exists t :: MayEnd(lang, t, y)
  }

  /** From state `c` at the end of a line the next line begins in state `next`: the parent
      of the topmost context that the end of the line ends, `c` itself if it ends none. */
  ghost predicate PassesLineEnd(lang: Language, c: Context, next: Context) {
    if exists x :: LineEnds(lang, x, c) then
      exists x :: LineEnds(lang, x, c) && next == x.parent && forall y :: LineEnds(lang, y, c) ==> IsAncestor(x, y)
    else
      next == c
  }

  lemma LineEndOnce(lang: Language, c: Context, next: Context, other: Context)
    requires PassesLineEnd(lang, c, next) && PassesLineEnd(lang, c, other)
    ensures next == other
  {
    if exists x :: LineEnds(lang, x, c) {
      var x :| LineEnds(lang, x, c) && next == x.parent && forall y :: LineEnds(lang, y, c) ==> IsAncestor(x, y);
      var z :| LineEnds(lang, z, c) && other == z.parent && forall y :: LineEnds(lang, y, c) ==> IsAncestor(z, y);
      AncestorDepth(x, z);
      AncestorDepth(z, x);
    }
  }

  /** What a line ends around the parent, and what it ends around the context itself. */
  lemma LineEndsParent(lang: Language, c: Context, x: Context)
    requires lang.Has(c) && c.Child?
    ensures LineEnds(lang, x, c) <==>
      if x == c then EndsWithLine(lang, c)
      else LineEnds(lang, x, c.parent) && (EndsWithLine(lang, c) || exists t :: MayEnd(lang, t, c))
  {
    forall y ensures IsAncestor(y, c) <==> y == c || IsAncestor(y, c.parent) {
    }
    if x == c {
      forall y | IsAncestor(y, c) && IsAncestor(c, y) ensures y == c {
        AncestorDepth(y, c);
        AncestorDepth(c, y);
      }
    } else if IsAncestor(x, c) {
      assert IsAncestor(x, c.parent);
    }
    if IsAncestor(c, c.parent) { AncestorDepth(c, c.parent); }
  }
}
