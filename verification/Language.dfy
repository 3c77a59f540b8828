/** Context definitions, their flags, and what one step of the line analysis
    does (`next_segment` and the functions it calls).

    Patterns are matched by a function of the language: `matches(p, line, limit,
    pos)` is the end of the match of pattern `p` anchored at `pos` when only the
    first `limit` characters of the line are visible.  Positions are characters. */
module Language {
  import opened Wrappers
  import opened Contexts

  datatype Definition = Definition(
    kind: ContextType,
    extendParent: bool,
    endParent: bool,
    endAtLineEnd: bool,
    firstLineOnly: bool,
    hasStart: bool,
    hasEnd: bool,
    endRefersToStart: bool,
    children: seq<nat>)   // what the definition iterator yields, in order

  datatype Pattern = MatchOf(definition: nat) | StartOf(definition: nat) | EndOf(definition: nat, startText: string)

  datatype Language = Language(
    definitions: seq<Definition>,
    main: Definition,
    matches: (Pattern, string, nat, nat) -> Option<nat>)
  {
    /** Every match consumes a character and stays inside the limit. */
    ghost predicate Consuming() {
      forall p: Pattern, line: string, limit: nat, pos: nat :: matches(p, line, limit, pos).Some? ==> pos < matches(p, line, limit, pos).value <= limit
    }

    predicate Known(ref: DefinitionRef) {
      ref.index < |definitions| && definitions[ref.index].kind == ref.kind
    }

    /** Every definition on the path of the context is one of the language, and
        only containers have children. */
    predicate Has(c: Context) {
      c.Root? || (Known(c.definition) && c.parent.IsContainer() && Has(c.parent))
    }

    function Def(c: Context): Definition
      requires Has(c)
    {
      if c.Root? then main else definitions[c.definition.index]
    }

    // ----- the context macros -----

    /** `all_ancestors_extend`, as `context_new` computes it. */
    predicate AllAncestorsExtend(c: Context)
      requires Has(c)
    {
      c.Root? || (AllAncestorsExtend(c.parent) && ExtendsParent(c.parent))
    }

    predicate HasGrandparent(c: Context) {
      c.Child? && c.parent.Child?
    }

    /** ANCESTOR_CAN_END_CONTEXT */
    predicate AncestorCanEnd(c: Context)
      requires Has(c)
    {
      HasGrandparent(c) && (!Def(c).extendParent || !AllAncestorsExtend(c))
    }

    /** CONTEXT_EXTENDS_PARENT */
    predicate ExtendsParent(c: Context)
      requires Has(c)
    {
      !HasGrandparent(c) || Def(c).extendParent
    }

    /** CONTEXT_ENDS_PARENT */
    predicate EndsParent(c: Context)
      requires Has(c)
    {
      HasGrandparent(c) && Def(c).endParent
    }

    /** CONTEXT_END_AT_LINE_END */
    predicate EndsAtLineEnd(c: Context)
      requires Has(c)
    {
      c.Child? && Def(c).endAtLineEnd
    }

    // ----- ends -----

    /** `segment_ends_here`: where the end match of `c` at `pos` ends.  The
        toplevel context is made without an end. */
    function EndMatch(c: Context, line: string, limit: nat, pos: nat): Option<nat>
      requires Has(c)
    {
      if c.Child? && Def(c).kind.Container? && Def(c).hasEnd then
        matches(EndOf(c.definition.index, c.startText), line, limit, pos)
      else None
    }

    /** `ancestor_context_ends_here`: the outermost context that may end `c` and
        whose end matches at `pos`. */
    function AncestorEnd(c: Context, line: string, pos: nat): (r: Option<Context>)
      requires Has(c)
      ensures r.Some? ==> r.value.Child? && Has(r.value) && r.value.Depth() < c.Depth() && pos < |line| + 1
      ensures r.Some? ==> EndMatch(r.value, line, |line|, pos).Some?
      ensures r.Some? ==> IsAncestor(r.value, c)
    {
      if !AncestorCanEnd(c) || pos > |line| then None
      else
        match AncestorEnd(c.parent, line, pos)
        case Some(t) => Some(t)
        case None =>
          if !ExtendsParent(c) && EndMatch(c.parent, line, |line|, pos).Some? then Some(c.parent) else None
    }

    /** `can_apply_match`: a match [pos, end) for `c` is cut where an ancestor ends
        in the middle of it, provided the pattern still matches there. */
    function CutMatch(c: Context, p: Pattern, line: string, pos: nat, end: nat): (r: Option<nat>)
      requires Has(c) && pos < end <= |line|
      ensures r.Some? ==> pos < r.value <= end
    {
      if !AncestorCanEnd(c) then Some(end)
      else
        var k := FirstAncestorEnd(c, line, pos + 1, end);
        if k == end then Some(end)
        else if matches(p, line, k, pos).Some? then Some(k)
        else None
    }

    /** The first position of [from, end) at which an ancestor of `c` ends, or `end`. */
    function FirstAncestorEnd(c: Context, line: string, from: nat, end: nat): (k: nat)
      requires Has(c) && from <= end
      ensures from <= k <= end
      decreases end - from
    {
      if from == end || AncestorEnd(c, line, from).Some? then from
      else FirstAncestorEnd(c, line, from + 1, end)
    }

    // ----- one step -----

    /** The parents that a context with the end-parent flag ends with it. */
    function EndTarget(c: Context): (r: Context)
      requires Has(c) && c.Child?
      ensures Has(r) && r.IsContainer() && r.Depth() < c.Depth() && IsAncestor(r, c)
    {
      if EndsParent(c) then EndTarget(c.parent) else c.parent
    }

    /** The nearest state from `c` up that is not ended along with its own end. */
    function Climb(c: Context): (r: Context)
      requires Has(c)
      ensures Has(r) && r.Depth() <= c.Depth() && IsAncestor(r, c) && (c.IsContainer() ==> r.IsContainer())
    {
      if EndsParent(c) then Climb(c.parent) else c
    }

    /** The state after a match of the simple context `c`: with the end-parent flag it
        ends its parent, and further parents as long as those have the flag. */
    function AfterSimple(c: Context): (r: Context)
      requires Has(c) && c.Child?
      ensures Has(r) && r.IsContainer() && r.Depth() < c.Depth() && IsAncestor(r, c.parent)
    {
      assert Has(c.parent);
      if EndsParent(c) then Climb(c.parent.parent) else c.parent
    }

    /** What `child_starts_here` does for the child definition `d`. */
    function ChildStep(c: Context, d: nat, line: string, pos: nat): (r: Option<Step>)
      requires Has(c) && c.IsContainer() && pos <= |line| && Consuming()
      ensures r.Some? ==> StepOk(c, r.value, line, pos) && r.value.at == pos && r.value.child.Some?
    {
      if d >= |definitions| then None
      else
        var def := definitions[d];
        var p := if def.kind.Container? then StartOf(d) else MatchOf(d);
        if (def.kind.Container? && !def.hasStart) || matches(p, line, |line|, pos).None? then None
        else
          var end := matches(p, line, |line|, pos).value;
          var text := if def.kind.Container? && def.hasEnd && def.endRefersToStart then line[pos..end] else "";
          var child := Child(c, DefinitionRef(d, def.kind), text);
          match CutMatch(child, p, line, pos, end)
          case None => None
          case Some(m) =>
            if def.kind.Container? then Some(Step(pos, m, Some(child), child))
            else Some(Step(pos, m, Some(child), AfterSimple(child)))
    }

    /** The children in the order of the definition iterator. */
    function ChildrenStep(c: Context, ds: seq<nat>, endFound: bool, first: bool, line: string, pos: nat): (r: Option<Step>)
      requires Has(c) && c.IsContainer() && pos <= |line| && Consuming()
      ensures r.Some? ==> StepOk(c, r.value, line, pos) && r.value.at == pos && r.value.child.Some?
    {
      if ds == [] then None
      else
        var skip := ds[0] < |definitions| &&
          ((!definitions[ds[0]].extendParent && endFound) || (definitions[ds[0]].firstLineOnly && !first));
        var r := if skip then None else ChildStep(c, ds[0], line, pos);
        if r.Some? then r else ChildrenStep(c, ds[1..], endFound, first, line, pos)
    }

    /** One round of the loop of `next_segment`: what happens exactly at `pos`. */
    function StepAt(c: Context, first: bool, line: string, pos: nat): (r: Option<Step>)
      requires Has(c) && c.IsContainer() && pos <= |line| && Consuming()
      ensures r.Some? ==> StepOk(c, r.value, line, pos) && r.value.at == pos
    {
      match AncestorEnd(c, line, pos)
      case Some(t) => Some(Step(pos, pos, None, t))
      case None =>
        var end := EndMatch(c, line, |line|, pos);
        match ChildrenStep(c, Def(c).children, end.Some?, first, line, pos)
        case Some(s) => Some(s)
        case None =>
          if end.Some? then
            match CutMatch(c, EndOf(c.definition.index, c.startText), line, pos, end.value)
            case Some(m) => Some(Step(pos, m, None, EndTarget(c)))
            case None => None
          else None
    }

    /** `next_segment`: the first position from `pos` on where something happens. */
    function NextStep(c: Context, first: bool, line: string, pos: nat): (r: Option<Step>)
      requires Has(c) && c.IsContainer() && pos <= |line| && Consuming()
      ensures r.Some? ==> StepOk(c, r.value, line, pos)
      decreases |line| - pos
    {
      var s := StepAt(c, first, line, pos);
      if s.Some? then s
      else if pos == |line| then None
      else NextStep(c, first, line, pos + 1)
    }

    /** What every step from state `c` at or after `pos` satisfies: it makes
        progress along the line or up the tree, and the states are containers. */
    ghost predicate StepOk(c: Context, s: Step, line: string, pos: nat)
      requires Has(c)
    {
      && pos <= s.at <= s.to <= |line|
      && Has(s.next) && s.next.IsContainer()
      && (s.to == s.at ==> s.child.None? && s.next.Depth() < c.Depth())
      && (s.child.Some? ==> Has(s.child.value) && s.child.value.Child? && s.child.value.parent == c)
      && (if s.child.Some? && s.child.value.IsContainer() then s.next == s.child.value else IsAncestor(s.next, c))
    }
  }

  /** From state c, the characters up to `at` belong to c and those of [at, to) to
      the child or, without one, to c; the next state is `next`. */
  datatype Step = Step(at: nat, to: nat, child: Option<Context>, next: Context)

  predicate IsAncestor(a: Context, c: Context) {
    a == c || (c.Child? && IsAncestor(a, c.parent))
  }
}
