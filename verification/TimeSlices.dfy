/** Analyzing in time slices: calls of `update_syntax` while the text stays as it is. */
module TimeSlices {
  import opened Wrappers
  import opened Lines
  import opened SegmentTree
  import opened SegmentRemove
  import opened InvalidRegion
  import opened Dirt
  import opened Consistency
  import opened OpenEnd
  import opened Account
  import opened SyntaxLoop
  import opened UpdateSyntax
  import opened Engine

  datatype Call = Call(limit: Option<nat>, budget: Option<nat>)

  predicate Allowed(text: string, calls: seq<Call>) {
    forall i :: 0 <= i < |calls| ==> calls[i].limit.Some? ==> calls[i].limit.value <= |text|
  }

  /** The tree is in step with the text, and all calls since it was `t` have one account. */
  ghost predicate Since(e: Engine, t: Segment, missed: set<int>, swallowed: set<int>)
    reads e
  {
    e.Valid() && e.empty && Sound(t, e.text) && Updated(e.lang, t, e.root, e.text, missed, e.missed, swallowed)
  }

  /** Any call of `update_syntax`. */
  method Continue(e: Engine, call: Call, ghost t: Segment, ghost missed: set<int>, ghost swallowed: set<int>)
    returns (ghost from: nat, ghost all: set<int>)
    requires Since(e, t, missed, swallowed) && (call.limit.Some? ==> call.limit.value <= |e.text|)
    modifies e`root, e`empty, e`synced, e`missed
    ensures Since(e, t, missed, all) && swallowed <= all
    ensures Advanced(old(e.root), e.root, e.text, from, call.limit, call.budget)
  {
    hide Sound, Consistent, EndSettled, Updated, Advanced, Coalesced;
    var hint: nat, hint2: nat := *, *;
    ghost var u, was := e.root, e.missed;
    ghost var before, stale, here;
    before, stale, from, here := e.UpdateSyntax(call.limit, call.budget, hint, hint2);
    UpdatedTwice(e.lang, t, u, e.root, e.text, missed, was, e.missed, swallowed, here);
    all := swallowed + here;
  }

  /** `first_update_callback` and `idle_worker`: one time slice after the other until
      everything is analyzed, after any calls for parts of the text.  This ends, as every
      slice gets over at least one line. */
  method AnalyzeInSlices(e: Engine, calls: seq<Call>, slices: nat -> nat) returns (ghost swallowed: set<int>)
    requires e.Valid() && e.empty && Allowed(e.text, calls)
    modifies e`root, e`empty, e`synced, e`missed
    ensures Since(e, old(e.root), old(e.missed), swallowed) && e.AllAnalyzed()
  {
    hide Consistent, EndSettled, Progress, Describes, Since;
    ghost var t, missed := e.root, e.missed;
    StartSince(e);
    swallowed := {};
    ghost var from;
    for i := 0 to |calls|
      invariant Since(e, t, missed, swallowed)
    {
      from, swallowed := Continue(e, calls[i], t, missed, swallowed);
    }
    ghost var a := 0;
    var n := 0;
    SinceFacts(e, t, missed, swallowed);
    NothingBefore(e.root, e.text);
    while !e.AllAnalyzed()
      invariant Since(e, t, missed, swallowed) && a <= |e.text| && IsLineStart(e.text, a) && CleanBefore(e.root, a)
      decreases |e.text| - a, InvalidCount(e.root.children)
    {
      SinceFacts(e, t, missed, swallowed);
      ghost var before := e.root;
      from, swallowed := Continue(e, Call(None, Some(slices(n))), t, missed, swallowed);
      SinceFacts(e, t, missed, swallowed);
      if e.AllAnalyzed() {
        CountZero(e.root.children, 0, a);
      } else {
        assert Advanced(before, e.root, e.text, from, None, Some(slices(n)));
        assert IsFirstLine(before, e.text, from);
        assert a <= from;
        a := if from < |e.text| then LineEnd(e.text, from) else from;
      }
      n := n + 1;
    }
  }

  lemma StartSince(e: Engine)
    requires e.Valid() && e.empty
    ensures Since(e, e.root, e.missed, {})
  {
    hide Consistent, EndSettled, Updated;
    UpdatedSame(e.lang, e.root, e.text, e.missed);
  }

  lemma SinceFacts(e: Engine, t: Segment, missed: set<int>, swallowed: set<int>)
    requires Since(e, t, missed, swallowed)
    ensures e.Valid() && e.empty && Sound(e.root, e.text)
  {
    hide Consistent, EndSettled, Updated;
  }

  lemma NothingBefore(t: Segment, text: string)
    requires Sound(t, text)
    ensures CleanBefore(t, 0)
  {
    if Dirty(t.children, 0, 0) { DirtyWithin(t.children, 0, t.endAt, t.context, 0, 0); }
  }
}
