/** `analyze_line`: building the segments of a line below the open segments. */
module LineBuild {
  import opened Wrappers
  import opened Contexts
  import opened Language
  import opened LineAnalysis
  import opened LineMeaning
  import opened SegmentTree
  import opened SegmentCreate
  import opened InvalidList
  import opened Labelling
  import opened Spine

  /** The tree while a line that ends at `le` is analyzed, everything before `x` being
      settled and the state being the segment on `state` with context `c`. */
  ghost predicate Building(r: Segment, state: Path, c: Context, x: int, le: int) {
    && ValidRoot(r) && le <= r.endAt && x <= le
    && Open(r, state, x, le)
    && IsPath(r, state) && At(r, state).context == Some(c)
  }

  /** `after` gives the characters of [x, x + |labels|) the contexts `labels`, and is
      otherwise like `before`. */
  ghost predicate Labelled(before: Segment, after: Segment, x: int, labels: seq<Context>) {
    && after.endAt == before.endAt
    && (forall o :: ContextAt(after, o) ==
          (if x <= o < x + |labels| then Some(labels[o - x]) else ContextAt(before, o)))
    && SameDirt(before.children, after.children)
  }

  lemma LabelledTwice(a: Segment, b: Segment, c: Segment, x: int, l: seq<Context>, m: seq<Context>)
    requires Labelled(a, b, x, l) && Labelled(b, c, x + |l|, m)
    ensures Labelled(a, c, x, l + m)
  {
  }

  /** `segment_extend` of the state. */
  method Extend(r: Segment, state: Path, ghost c: Context, ghost x: int, z: int, ghost le: int) returns (r': Segment)
    requires Building(r, state, c, x, le) && x <= z <= le
    ensures Building(r', state, c, z, le) && Labelled(r, r', x, Repeat(c, z - x))
    ensures At(r', state).children == At(r, state).children && At(r', state).endAt >= z
    ensures At(r', state).startAt == At(r, state).startAt
  {
    GrowKeepsPath(r, state, z);
    GrowShape(r, state, x, z, le);
    GrowDirt(r, state, x, z, le);
    forall o ensures MarkAt(Grow(r, state, z), o) == if x <= o < z then Own(At(r, state)) else MarkAt(r, o) {
      GrowMarks(r, state, x, z, le, o);
    }
    r' := Grow(r, state, z);
  }

  /** A child [y, z) of the state, which was just extended to `z`. */
  method AddChild(r: Segment, state: Path, ghost c: Context, child: Context, y: int, z: int, ghost le: int, hint: nat)
    returns (r': Segment, k: nat)
    requires Building(r, state, c, z, le) && y < z && At(r, state).endAt >= z && At(r, state).startAt <= y
    requires child.Child? && child.parent == c
    requires forall i :: 0 <= i < |At(r, state).children| ==>
      At(r, state).children[i].endAt <= y || le <= At(r, state).children[i].startAt
    ensures Building(r', state, c, z, le)
    ensures child.IsContainer() ==> Building(r', state + [k], child, z, le)
    ensures r'.endAt == r.endAt && SameDirt(r.children, r'.children)
    ensures forall o :: ContextAt(r', o) == (if y <= o < z then Some(child) else ContextAt(r, o))
  {
    var s := At(r, state);
    WithinSegment(r, state);
    ForestBounds(s.children, s.startAt, s.endAt, s.context);
    k := FindSegmentPosition(s.children, s.startAt, s.endAt, s.context, hint, y, z);
    var n := Segment(Some(child), y, z, true, []);
    forall i | k <= i < |s.children| ensures le <= s.children[i].startAt {
    }
    AddShape(r, state, k, n, z, le);
    AddKeepsPath(r, state, k, n);
    AddDirt(r, state, k, n, z, le);
    if child.IsContainer() { AddOpens(r, state, k, n, z, le); }
    forall o ensures MarkAt(AddAt(r, state, k, n), o) == if n.Covers(o) then Own(n) else MarkAt(r, o) {
      AddMarks(r, state, k, n, z, le, o);
    }
    r' := AddAt(r, state, k, n);
  }

  /** From the state up to the segment whose context is the ancestor `t`. */
  method CloseTo(r: Segment, state: Path, ghost c: Context, t: Context, ghost x: int, ghost le: int) returns (p: Path)
    requires Building(r, state, c, x, le) && IsAncestor(t, c)
    ensures Building(r, p, t, x, le)
  {
    p := state;
    ghost var d := c;
    while At(r, p).context != Some(t)
      invariant Building(r, p, d, x, le) && IsAncestor(t, d)
      decreases |p|
    {
      PathDepth(r, p);
      ParentContext(r, p);
      OpenPrefix(r, p, |p| - 1, x, le);
      p := p[..|p| - 1];
      d := d.parent;
    }
  }

  /** In the middle of the line: the tree has the contexts `done` up to `pos`. */
  ghost predicate Halfway(lang: Language, before: Segment, r: Segment, state: Path, c: Context, line: string, ls: nat,
                          done: seq<Context>, cur: Context, pos: nat)
    requires lang.Consuming() && lang.Has(c) && c.IsContainer()
  {
    && Reached(lang, c, ls == 0, Text(line), done, cur, pos)
    && Building(r, state, cur, ls + pos, ls + |line|)
    && Labelled(before, r, ls, done)
  }

  /** `analyze_line`.  `state` is the state at the start of the line and `c` its
      context. */
  method AnalyzeLine(lang: Language, r: Segment, state: Path, ghost c: Context, line: string, ls: nat, hint: nat)
    returns (r': Segment, state': Path)
    requires lang.Consuming() && lang.Has(c) && c.IsContainer() && line != ""
    requires Building(r, state, c, ls, ls + |line|)
    ensures Labelled(r, r', ls, LineContexts(lang, c, ls == 0, line))
    ensures Building(r', state', LineExit(lang, c, ls == 0, line), ls + |line|, ls + |line|)
    ensures LineMeans(lang, c, ls == 0, line, LineContexts(lang, c, ls == 0, line), LineExit(lang, c, ls == 0, line))
  {
    hide Language.NextStep, Building, Labelled, LineContexts, LineExit, LineMeans;
    LineFollows(lang, c, ls == 0, line);
    var pos := 0;
    r', state' := r, state;
    BuildingState(r, state, c, ls, ls + |line|);
    var cur := At(r, state).context.value;
    ghost var done: seq<Context> := [];
    LabelledNothing(r, ls);
    ReachedStart(lang, c, ls == 0, Text(line));
    while true
      invariant Halfway(lang, r, r', state', c, line, ls, done, cur, pos)
      decreases |Text(line)| - pos, cur.Depth()
    {
      var s := lang.NextStep(cur, ls == 0, Text(line), pos);
      if s.None? {
        break;
      }
      r', state', done := Advance(lang, r, r', state', c, line, ls, done, cur, pos, s.value, hint);
      cur, pos := s.value.next, s.value.to;
    }
    r', state' := FinishLine(lang, r, r', state', c, cur, done, line, ls, pos);
  }

  lemma BuildingState(r: Segment, state: Path, c: Context, x: int, le: int)
    requires Building(r, state, c, x, le)
    ensures IsPath(r, state) && At(r, state).context == Some(c)
  {
  }

  method Advance(lang: Language, ghost before: Segment, r: Segment, state: Path, ghost c: Context, line: string, ls: nat,
                 ghost done: seq<Context>, cur: Context, pos: nat, s: Step, hint: nat)
    returns (r': Segment, state': Path, ghost done': seq<Context>)
    requires lang.Consuming() && lang.Has(c) && c.IsContainer()
    requires Halfway(lang, before, r, state, c, line, ls, done, cur, pos)
    requires lang.NextStep(cur, ls == 0, Text(line), pos) == Some(s)
    ensures Halfway(lang, before, r', state', c, line, ls, done', s.next, s.to)
  {
    hide Language.NextStep, Building, Labelled, StepContexts, Analyze;
    ReachedStep(lang, c, ls == 0, Text(line), done, cur, pos);
    r', state' := ApplyStep(lang, r, state, cur, s, ls, pos, ls + |line|, hint);
    LabelledTwice(before, r, r', ls, done, StepContexts(cur, s, pos));
    done' := done + StepContexts(cur, s, pos);
  }

  lemma LabelledNothing(r: Segment, x: int)
    ensures Labelled(r, r, x, [])
  {
  }

  /** What `next_segment` does to the tree for one step. */
  method ApplyStep(lang: Language, r: Segment, state: Path, c: Context, s: Step, ls: nat, pos: nat, ghost le: int, hint: nat)
    returns (r': Segment, state': Path)
    requires lang.Has(c) && Building(r, state, c, ls + pos, le) && ls + s.to <= le
    requires pos <= s.at <= s.to && (s.to == s.at ==> s.child.None?)
    requires s.child.Some? ==> s.child.value.Child? && s.child.value.parent == c
    requires if s.child.Some? && s.child.value.IsContainer() then s.next == s.child.value else IsAncestor(s.next, c)
    ensures Building(r', state', s.next, ls + s.to, le)
    ensures Labelled(r, r', ls + pos, StepContexts(c, s, pos))
  {
    hide Building, IsAncestor;
    StateFacts(r, state, c, ls + pos, le);
    r' := Extend(r, state, c, ls + pos, ls + s.to, le);
    state' := state;
    assert Repeat(c, s.to - pos) == Repeat(c, s.at - pos) + Repeat(c, s.to - s.at);
    if s.child.Some? {
      var k;
      r', k := AddChild(r', state, c, s.child.value, ls + s.at, ls + s.to, le, hint);
      if s.child.value.IsContainer() {
        state' := state + [k];
        return;
      }
    }
    state' := CloseTo(r', state', c, s.next, ls + s.to, le);
  }

  lemma StateFacts(r: Segment, state: Path, c: Context, x: int, le: int)
    requires Building(r, state, c, x, le)
    ensures IsPath(r, state) && At(r, state).IsContainer() && At(r, state).startAt <= x
    ensures forall i :: 0 <= i < |At(r, state).children| ==>
      At(r, state).children[i].endAt <= x || le <= At(r, state).children[i].startAt
  {
    OpenIsPath(r, state, x, le);
    OpenKids(r, state, x, le);
  }

  lemma {:induction false} OpenKids(s: Segment, path: Path, x: int, le: int)
    requires Open(s, path, x, le) && IsPath(s, path)
    ensures forall i :: 0 <= i < |At(s, path).children| ==>
      At(s, path).children[i].endAt <= x || le <= At(s, path).children[i].startAt
    decreases path
  {
    if path != [] { OpenKids(s.children[path[0]], path[1..], x, le); }
  }

  lemma LabelsOfLine(lang: Language, c: Context, line: string, first: bool, done: seq<Context>, cur: Context, pos: nat)
    requires lang.Consuming() && lang.Has(c) && c.IsContainer() && lang.Has(cur) && cur.IsContainer()
    requires pos <= |Text(line)|
    requires Analyze(lang, c, first, Text(line), 0) == (done + Repeat(cur, |Text(line)| - pos), cur)
    ensures LineContexts(lang, c, first, line) ==
            done + Repeat(cur, |Text(line)| - pos) + Repeat(AfterLineEnd(lang, cur), |line| - |Text(line)|)
    ensures LineExit(lang, c, first, line) == AfterLineEnd(lang, cur)
  {
  }

  /** The end of `analyze_line`: up to the end of the text, the check of the line
      end, and up to the next line. */
  method FinishLine(lang: Language, ghost before: Segment, r: Segment, state: Path, ghost c: Context, cur: Context,
                    ghost done: seq<Context>, line: string, ls: nat, pos: nat)
    returns (r': Segment, state': Path)
    requires lang.Consuming() && lang.Has(c) && c.IsContainer() && lang.Has(cur) && cur.IsContainer() && line != ""
    requires pos <= |Text(line)| && Building(r, state, cur, ls + pos, ls + |line|)
    requires |done| == pos && Labelled(before, r, ls, done)
    requires Analyze(lang, c, ls == 0, Text(line), 0) == (done + Repeat(cur, |Text(line)| - pos), cur)
    ensures Labelled(before, r', ls, LineContexts(lang, c, ls == 0, line))
    ensures Building(r', state', LineExit(lang, c, ls == 0, line), ls + |line|, ls + |line|)
  {
    hide LineContexts, LineExit, Analyze, AfterLineEnd, Building;
    var n := |Text(line)|;
    var next := AfterLineEnd(lang, cur);
    LabelsOfLine(lang, c, line, ls == 0, done, cur, pos);
    r' := Extend(r, state, cur, ls + pos, ls + n, ls + |line|);
    LabelledTwice(before, r, r', ls, done, Repeat(cur, n - pos));
    ghost var middle := r';
    AfterIsAncestor(lang, cur);
    state' := CloseTo(r', state, cur, next, ls + n, ls + |line|);
    r' := Extend(r', state', next, ls + n, ls + |line|, ls + |line|);
    LabelledTwice(before, middle, r', ls, done + Repeat(cur, n - pos), Repeat(next, |line| - n));
  }

  lemma AfterIsAncestor(lang: Language, c: Context)
    requires lang.Has(c) && c.IsContainer()
    ensures IsAncestor(AfterLineEnd(lang, c), c)
  {
    var t := Terminating(lang, c);
    if t.Some? { ParentIsAncestor(t.value, c); }
  }

  lemma {:induction false} ParentIsAncestor(t: Context, c: Context)
    requires IsAncestor(t, c) && t.Child?
    ensures IsAncestor(t.parent, c)
  {
    if t != c { ParentIsAncestor(t, c.parent); }
  }
}
