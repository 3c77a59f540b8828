/** Any run of edits and calls of `update_syntax`, in any order: when the tree is the scan of
    the text after it, and what goes wrong otherwise. */
module Interleaving {
  import opened Wrappers
  import opened Contexts
  import opened Language
  import opened Lines
  import opened SegmentTree
  import opened SegmentRemove
  import opened InvalidRegion
  import opened Labelling
  import opened Dirt
  import opened Consistency
  import opened LineStep
  import opened EditStep
  import opened OpenEnd
  import opened Account
  import opened UpdateSyntax
  import opened LineAnalysis
  import opened DirtMoves
  import opened EmptyMarks
  import opened TreeUpdate
  import opened Interruption
  import opened Sequences
  import opened Engine
  import opened TimeSlices

  /** An edit of the buffer, or a call of `update_syntax`. */
  datatype Action = Typed(edit: Edit) | Called(call: Call)

  predicate Runnable(text: string, actions: seq<Action>)
    decreases |actions|
  {
    actions == [] ||
    match actions[0]
    case Typed(edit) => Possible(text, edit) && Runnable(Apply(text, edit), actions[1..])
    case Called(call) => (call.limit.Some? ==> call.limit.value <= |text|) && Runnable(text, actions[1..])
  }

  function TextAfter(text: string, actions: seq<Action>): string
    requires Runnable(text, actions)
    decreases |actions|
  {
    if actions == [] then text
    else
      match actions[0]
      case Typed(edit) => TextAfter(Apply(text, edit), actions[1..])
      case Called(call) => TextAfter(text, actions[1..])
  }

  // ----- one call -----

  /** A call of `update_syntax`: the texts, trees and missed lines before it (`s`, `t`,
      `missed`), after `update_tree` (`x`, `u`, `stale`) and after it (`x`, `r`, `left`), the
      region it found and the lines whose marks it lost. */
  datatype Pass = Pass(s: string, x: string, region: Region, t: Segment, u: Segment, r: Segment,
                       missed: set<int>, stale: set<int>, left: set<int>, swallowed: set<int>)

  ghost predicate IsPass(lang: Language, p: Pass)
    requires lang.Consuming()
  {
    && (if p.region.empty then p.s == p.x && p.u == p.t && p.stale == p.missed
        else Edited(p.t, p.u, p.s, p.x, p.region.start, p.region.end, p.region.delta)
             && Placed(p.t, p.u, p.region.start, p.region.end, p.region.delta)
             && p.stale == EditMissed(p.t, p.u, p.s, p.x, p.region.end, p.region.delta, p.missed))
    && Sound(p.u, p.x) && Updated(lang, p.u, p.r, p.x, p.stale, p.left, p.swallowed)
    && (InvalidCount(p.u.children) == 0 && p.x != "" ==> p.r == p.u && p.left == p.stale)
  }

  /** `update_tree` missed no line, and every mark held when its line was passed. */
  ghost predicate Faultless(p: Pass) {
    && (!p.region.empty ==> EditMissed(p.t, p.u, p.s, p.x, p.region.end, p.region.delta, {}) == {})
    && p.swallowed == {}
  }

  lemma FaultlessPass(lang: Language, p: Pass)
    requires lang.Consuming() && IsPass(lang, p) && Faultless(p) && p.missed == {} && Regular(p.t, p.s)
    ensures p.left == {} && Regular(p.r, p.x)
  {
    hide Edited, EditMissed, Updated, Sound, Regular;
    if !p.region.empty { EditRegular(p.t, p.u, p.s, p.x, p.region.start, p.region.end, p.region.delta); }
    NothingBlamed(lang, p.u, p.r, p.x, p.stale, p.left);
  }

  /** In particular nothing is missed by a region that ends inside a line, and no mark is lost
      when nothing was to be analyzed before. */
  lemma InsideLine(p: Pass)
    requires !p.region.empty && !(0 <= p.region.end < |p.x| && IsLineStart(p.x, p.region.end))
    ensures EditMissed(p.t, p.u, p.s, p.x, p.region.end, p.region.delta, {}) == {}
  {
  }

  lemma MarksHeld(lang: Language, p: Pass)
    requires lang.Consuming() && IsPass(lang, p) && Held(p.u, p.x)
    ensures p.swallowed == {}
  {
    hide Edited, EditMissed, Updated, Held;
    HeldOn(lang, p.u, p.r, p.x, p.stale, p.left, p.swallowed);
  }

  // ----- runs -----

  /** The calls of a run, one after the other. */
  ghost predicate Chain(lang: Language, passes: seq<Pass>, t: Segment, s: string, missed: set<int>, r: Segment, x: string, left: set<int>)
    requires lang.Consuming()
    decreases |passes|
  {
    if passes == [] then t == r && s == x && missed == left
    else
      && passes[0].t == t && passes[0].s == s && passes[0].missed == missed && IsPass(lang, passes[0])
      && Chain(lang, passes[1..], passes[0].r, passes[0].x, passes[0].left, r, x, left)
  }

  lemma {:induction false} FaultlessChain(lang: Language, passes: seq<Pass>, t: Segment, s: string, missed: set<int>, r: Segment, x: string, left: set<int>)
    requires lang.Consuming() && Chain(lang, passes, t, s, missed, r, x, left) && missed == {} && Regular(t, s)
    requires forall i :: 0 <= i < |passes| ==> Faultless(passes[i])
    ensures left == {} && Regular(r, x)
    decreases |passes|
  {
    hide IsPass, Faultless, Regular;
    if passes != [] {
      var p := passes[0];
      FaultlessPass(lang, p);
      forall i | 0 <= i < |passes[1..]| ensures Faultless(passes[1..][i]) {
        assert passes[1..][i] == passes[i + 1];
      }
      FaultlessChain(lang, passes[1..], p.r, p.x, p.left, r, x, left);
    }
  }

  /** A run of edits and calls. */
  method Run(e: Engine, actions: seq<Action>) returns (ghost passes: seq<Pass>)
    requires e.Valid() && Runnable(e.text, actions)
    modifies e
    ensures e.Valid() && e.text == TextAfter(old(e.text), actions)
    ensures Chain(e.lang, passes, old(e.root), old(e.synced), old(e.missed), e.root, e.synced, e.missed)
    ensures |passes| == |Calls(actions)|
    decreases |actions|
  {
    hide Consistent, EndSettled, Sound, Coalesced, Describes, IsPass, Advanced;
    passes := [];
    if actions != [] {
      match actions[0] {
        case Typed(edit) =>
          match edit {
            case Insertion(offset, s) => e.TextInserted(offset, s);
            case Deletion(offset, length) => e.TextDeleted(offset, length);
          }
          passes := Run(e, actions[1..]);
        case Called(call) =>
          ghost var p := OneCall(e, call);
          ghost var rest := Run(e, actions[1..]);
          passes := [p] + rest;
          assert passes[1..] == rest;
      }
    }
  }

  method OneCall(e: Engine, call: Call) returns (ghost p: Pass)
    requires e.Valid() && (call.limit.Some? ==> call.limit.value <= |e.text|)
    modifies e`root, e`empty, e`synced, e`missed
    ensures e.Valid() && e.text == old(e.text) && IsPass(e.lang, p)
    ensures p.t == old(e.root) && p.s == old(e.synced) && p.missed == old(e.missed) && p.region == old(e.RegionNow())
    ensures p.r == e.root && p.x == e.synced == e.text && p.left == e.missed
  {
    hide Consistent, EndSettled, Sound, Coalesced, Advanced, Updated, Edited, Placed, EditMissed, AllClean;
    var hint: nat, hint2: nat := *, *;
    ghost var t, s, missed, region := e.root, e.synced, e.missed, e.RegionNow();
    RegionSays(e);
    ghost var before, stale, from, swallowed;
    before, stale, from, swallowed := e.UpdateSyntax(call.limit, call.budget, hint, hint2);
    p := Pass(s, e.text, region, t, before, e.root, missed, stale, e.missed, swallowed);
  }

  lemma RegionSays(e: Engine)
    requires e.Valid()
    ensures e.empty ==> e.synced == e.text
  {
    hide Consistent, EndSettled, Sound, Coalesced;
  }

  function Calls(actions: seq<Action>): seq<Action> {
    if actions == [] then []
    else if actions[0].Called? then [actions[0]] + Calls(actions[1..]) else Calls(actions[1..])
  }

  /** A buffer is opened, and then edited and analyzed in any order.  If `update_tree` never
      misses a line and every mark holds when its line is passed, then once everything is
      analyzed, the tree is the scan of the text exactly if the end of the text is not open.
      In any case it is the scan exactly if the lines still missed are right. */
  method RunBuffer(lang: Language, buffer: string, actions: seq<Action>) returns (e: Engine, ghost passes: seq<Pass>)
    requires lang.Consuming() && Runnable(buffer, actions)
    ensures fresh(e) && e.Valid() && e.lang == lang && e.text == TextAfter(buffer, actions)
    ensures Chain(lang, passes, Segment(Some(Root), 0, 0, true, []), "", {}, e.root, e.synced, e.missed) && |passes| == |Calls(actions)|
    ensures e.AllAnalyzed() && (forall i :: 0 <= i < |passes| ==> Faultless(passes[i])) ==>
      (IsScan(lang, e.root, e.text) <==> !EndIsOpen(lang, e.text))
    ensures e.AllAnalyzed() ==>
      (IsScan(lang, e.root, e.text) <==>
        AllRight(lang, e.root, e.text, e.missed) && (e.text != "" && LastLine(e.text) !in e.missed ==> !EndIsOpen(lang, e.text)))
  {
    hide Consistent, EndSettled, Sound, Coalesced, Describes, Chain, IsScan, EndIsOpen, AllRight, Faultless, Regular;
    e := new Engine(lang, buffer);
    ghost var t, s, missed := e.root, e.synced, e.missed;
    passes := Run(e, actions);
    if e.AllAnalyzed() {
      IncrementalIsScan(e);
      if forall i :: 0 <= i < |passes| ==> Faultless(passes[i]) {
        FaultlessChain(lang, passes, t, s, missed, e.root, e.synced, e.missed);
      }
    }
  }

  // ----- what goes wrong otherwise -----

  /** The line at `m` is wrong: it and everything before it is done, what is before it is
      right, and it has not the contexts of its analysis from the state before it. */
  ghost predicate Wrong(lang: Language, t: Segment, text: string, m: int)
    requires lang.Consuming()
  {
    && 0 <= m < |text| && IsLineStart(text, m) && CleanBefore(t, m) && !DirtyLine(t, text, m)
    && AnalyzedTo(lang, t, text, m) && !Right(lang, t, text, m)
  }

  lemma WrongIsNotScan(lang: Language, t: Segment, text: string, m: int)
    requires lang.Consuming() && Wrong(lang, t, text, m)
    ensures !IsScan(lang, t, text)
  {
    hide Scan, LineIs;
    if IsScan(lang, t, text) { ScanIsRight(lang, t, text, {m}); }
  }

  /** The line at `b` is the first that may go wrong in a call: no line before it is missed,
      no mark before it is lost, and no beginning before it is a stray one. */
  ghost predicate Least(u: Segment, x: string, stale: set<int>, swallowed: set<int>, b: int) {
    && 0 < b < |x| && IsLineStart(x, b)
    && (forall m :: m in stale ==> b <= m) && First(swallowed, b)
    && (forall q :: Stray(u, x, q, -1) ==> b <= q)
  }

  lemma BeforeIsRight(lang: Language, u: Segment, r: Segment, x: string, stale: set<int>, left: set<int>, swallowed: set<int>, b: int)
    requires lang.Consuming() && Updated(lang, u, r, x, stale, left, swallowed) && Least(u, x, stale, swallowed, b) && CleanBefore(r, b)
    ensures AnalyzedTo(lang, r, x, b)
  {
    hide Consistent, EndSettled, Behind, Beyond, DoubtEnds, LossEnds, LosesMark, Doubt, Stray, LineIs, Torn;
    forall a: nat | a < |x| && a < b && IsLineStart(x, a) ensures a !in left && !DirtyLine(r, x, a) {
      CleanLine(r, x, a, b);
      NotLeft(u, x, stale, left, swallowed, b, a);
    }
    forall a: nat, e | a < |x| && a < b && IsLineStart(x, a) && EntryIs(lang, r, a, e) ensures !Torn(lang, r, x, a, e) {
      LinesMeetAt(x, a, b);
      TornLast(lang, r, x, a, e);
    }
    LinesAreRight(lang, r, x, left, b);
  }

  lemma TornLast(lang: Language, t: Segment, text: string, a: nat, e: Context)
    requires lang.Consuming() && a < |text| && lang.Has(e) && e.IsContainer() && LineEnd(text, a) < |text|
    ensures !Torn(lang, t, text, a, e)
  {
  }

  lemma NotLeft(u: Segment, x: string, stale: set<int>, left: set<int>, swallowed: set<int>, b: int, a: int)
    requires Least(u, x, stale, swallowed, b) && a < b && (a in left && a !in stale ==> Blamed(u, x, -1, swallowed, a))
    ensures a !in left
  {
    hide Stray;
  }

  /** The first line that may go wrong in a call, once the analysis has got there.  If it was
      left as it was, it is wrong exactly if its contexts are not those of its analysis from
      the state that is before it now.  It was left so if the toplevel segment spans its start;
      it was not otherwise, if it was not passed over without any analysis. */
  lemma FaultDecides(lang: Language, u: Segment, r: Segment, x: string, stale: set<int>, left: set<int>, swallowed: set<int>, b: int)
    requires lang.Consuming() && Updated(lang, u, r, x, stale, left, swallowed) && Least(u, x, stale, swallowed, b) && CleanBefore(r, b)
    requires Doubt(u, x, stale, b) || b in swallowed
    ensures b in left ==> !DirtyLine(r, x, b) && forall e :: EntryIs(lang, r, b, e) ==> (Wrong(lang, r, x, b) <==> !LineIs(lang, u, x, b, e))
    ensures b !in left && !DirtyLine(r, x, b) ==> forall e :: EntryIs(lang, r, b, e) ==> AnalyzedFrom(lang, r, x, b, e)
    ensures ContextAt(r, b - 1) == Some(Root) && ContextAt(u, b) == Some(Root) ==> b in left
    ensures b in left ==>
      || (ContextAt(r, b - 1) == Some(Root) && ContextAt(u, b) == Some(Root))
      || (!DirtyLine(u, x, PreviousLine(x, b)) && ContextAt(r, b - 1) == ContextAt(u, b - 1))
  {
    hide Consistent, EndSettled, Behind, Beyond, Stray, MarkHolds, Torn, AnalyzedTo, Dirty, CleanFrom, SameFrom, LineContexts, LineIs, Blamed, DirtyLine, Right;
    BeforeIsRight(lang, u, r, x, stale, left, swallowed, b);
    if b in swallowed {
      assert LosesMark(u, r, x, b) && LossEnds(u, r, x, left, swallowed, b);
      LeastBlame(u, x, stale, swallowed, b);
    } else {
      assert DoubtEnds(u, r, x, left, b);
    }
    if b in left {
      forall e | EntryIs(lang, r, b, e) ensures Right(lang, r, x, b) <==> LineIs(lang, u, x, b, e) {
        KeptIs(lang, u, r, x, b, e);
      }
    } else if !DirtyLine(r, x, b) {
      forall e | EntryIs(lang, r, b, e) ensures AnalyzedFrom(lang, r, x, b, e) {
        CleanLine(r, x, PreviousLine(x, b), b);
        FromEntry(lang, r, x, b, e, left);
      }
    }
  }

  lemma LeastBlame(u: Segment, x: string, stale: set<int>, swallowed: set<int>, b: int)
    requires Least(u, x, stale, swallowed, b)
    ensures !Blamed(u, x, -1, swallowed, b - 1)
  {
    hide Stray;
  }

  lemma FromEntry(lang: Language, r: Segment, x: string, b: nat, e: Context, left: set<int>)
    requires lang.Consuming() && 0 < b < |x| && IsLineStart(x, b) && b !in left && EntryIs(lang, r, b, e) && Consistent(lang, r, x, -1, left)
    requires !DirtyLine(r, x, b) && !DirtyLine(r, x, PreviousLine(x, b))
    ensures AnalyzedFrom(lang, r, x, b, e)
  {
    hide LineIs, Torn;
    LineFromEntry(lang, r, x, b, e, left);
  }

  lemma KeptIs(lang: Language, u: Segment, r: Segment, text: string, b: nat, e: Context)
    requires lang.Consuming() && 0 < b < |text| && KeptLine(u, r, text, b) && EntryIs(lang, r, b, e)
    ensures Right(lang, r, text, b) <==> LineIs(lang, u, text, b, e)
  {
    hide LineContexts;
    assert LineIs(lang, r, text, b, e) <==> LineIs(lang, u, text, b, e);
  }

  // ----- the first call with a fault -----

  /** A call with a fault after which all was well: there is a first line that may go wrong. */
  lemma FirstFault(lang: Language, p: Pass) returns (b: int)
    requires lang.Consuming() && IsPass(lang, p) && !Faultless(p) && p.missed == {} && Regular(p.t, p.s)
    ensures Least(p.u, p.x, p.stale, p.swallowed, b) && (Doubt(p.u, p.x, p.stale, b) || b in p.swallowed)
  {
    hide Edited, Placed, Updated, Regular, Stray, EditMissed, Sound;
    var all := p.stale + p.swallowed;
    assert all != {};
    var x := SomeElement(all);
    b := LeastOf(all, x);
    forall q | Stray(p.u, p.x, q, -1) ensures b <= q {
      FaultStray(p, q);
    }
    if b in p.swallowed { SwallowedLine(lang, p, b); } else { StaleLine(p, b); }
  }

  lemma FaultStray(p: Pass, q: int)
    requires Regular(p.t, p.s) && p.missed == {} && Stray(p.u, p.x, q, -1)
    requires if p.region.empty then p.s == p.x && p.u == p.t
             else Edited(p.t, p.u, p.s, p.x, p.region.start, p.region.end, p.region.delta)
                  && p.stale == EditMissed(p.t, p.u, p.s, p.x, p.region.end, p.region.delta, {})
    ensures 0 <= q < |p.x| && LineStart(p.x, q) in p.stale
  {
    hide Edited, EditMissed, Stray;
    EditStrays(p.t, p.u, p.s, p.x, p.region.start, p.region.end, p.region.delta, q);
  }

  lemma SwallowedLine(lang: Language, p: Pass, b: int)
    requires lang.Consuming() && Updated(lang, p.u, p.r, p.x, p.stale, p.left, p.swallowed) && b in p.swallowed
    ensures 0 < b < |p.x| && IsLineStart(p.x, b)
  {
    hide Consistent, EndSettled, Behind, Beyond, DoubtEnds, LossEnds, Doubt, Stray, Blamed;
    assert LosesMark(p.u, p.r, p.x, b);
  }

  lemma StaleLine(p: Pass, b: int)
    requires !p.region.empty && Edited(p.t, p.u, p.s, p.x, p.region.start, p.region.end, p.region.delta)
    requires p.stale == EditMissed(p.t, p.u, p.s, p.x, p.region.end, p.region.delta, {}) && b in p.stale
    requires forall q :: Stray(p.u, p.x, q, -1) ==> b <= q
    ensures Doubt(p.u, p.x, p.stale, b)
  {
    hide Stray, MarkHolds, Dirty;
    if b == p.region.end { LineBeforeEnd(p.t, p.u, p.s, p.x, p.region.start, p.region.end, p.region.delta); }
  }

  // ----- a wrong line stays wrong -----

  /** What lies before the region, up to the end of a line, keeps its contexts, and nothing
      there is to be analyzed that was not before. */
  lemma BeforeRegion(lang: Language, t: Segment, u: Segment, s: string, x: string, start: int, end: int, d: int, e: nat)
    requires Edited(t, u, s, x, start, end, d) && Placed(t, u, start, end, d) && TerminatorsOk(lang, t, s)
    requires 0 < e <= start && s[e - 1] == '\n' && CleanBefore(t, e)
    ensures CleanBefore(u, e) && forall o :: 0 <= o < e ==> ContextAt(u, o) == ContextAt(t, o)
  {
    hide Follows, UpdatedBy, Dirty, MarkAt, Solid;
    forall o | 0 <= o < e ensures ContextAt(u, o) == ContextAt(t, o) && ContextAt(t, o).Some? {
      KeptBefore(lang, t, u, s, start, end, d, e, o);
    }
    if Dirty(u.children, 0, e) { UpdatedClean(t, u, start, end, d, 0, e); }
  }

  lemma KeptBefore(lang: Language, t: Segment, u: Segment, s: string, start: int, end: int, d: int, e: nat, o: nat)
    requires Sound(t, s) && SoundUpdate(t, u, start, end, d) && TerminatorsOk(lang, t, s)
    requires o < e <= start <= |s| && s[e - 1] == '\n' && CleanBefore(t, e)
    ensures ContextAt(u, o) == ContextAt(t, o) && ContextAt(t, o).Some?
  {
    hide Dirty, MarkIn, Solid;
    if ContextAt(t, o) == None { InvalidIsDirty(t.children, o, Own(t), 0, e); }
    assert KeptOrLost(ContextAt(u, o), t, o, start, end - d);
    if MayLose(t, o, start, end - d) && o < e - 1 < start - 1 {
      SimpleSpan(t.children, 0, t.endAt, t.context, o, e - 1, start - 1, Own(t));
    }
  }

  /** Two lines with the same text, contexts and state before them are right alike. */
  lemma RightAlike(lang: Language, t: Segment, u: Segment, s: string, x: string, a: nat)
    requires lang.Consuming() && a < |s| && a < |x| && LineEnd(x, a) == LineEnd(s, a) && s[a..LineEnd(s, a)] == x[a..LineEnd(x, a)]
    requires forall o :: a - 1 <= o < LineEnd(s, a) ==> ContextAt(u, o) == ContextAt(t, o)
    ensures Right(lang, t, s, a) <==> Right(lang, u, x, a)
  {
    hide LineIs, ContextAt, LineEnd;
    forall e: Context | EntryIs(lang, t, a, e) ensures LineIs(lang, t, s, a, e) <==> LineIs(lang, u, x, a, e) {
      LineAlike(lang, t, u, s, x, a, e);
    }
  }

  lemma LineAlike(lang: Language, t: Segment, u: Segment, s: string, x: string, a: nat, e: Context)
    requires lang.Consuming() && lang.Has(e) && e.IsContainer()
    requires a < |s| && a < |x| && LineEnd(x, a) == LineEnd(s, a) && s[a..LineEnd(s, a)] == x[a..LineEnd(x, a)]
    requires forall o :: a <= o < LineEnd(s, a) ==> ContextAt(u, o) == ContextAt(t, o)
    ensures LineIs(lang, t, s, a, e) <==> LineIs(lang, u, x, a, e)
  {
    hide LineContexts, ContextAt, LineEnd;
  }

  /** Everything before `b` is right exactly if every line is. */
  lemma LinesRight(lang: Language, t: Segment, text: string, b: int)
    requires lang.Consuming()
    ensures AnalyzedTo(lang, t, text, b) <==> forall a: nat :: a < |text| && a < b && IsLineStart(text, a) ==> Right(lang, t, text, a)
  {
    hide LineIs, EntryIs;
    if AnalyzedTo(lang, t, text, b) {
      forall a: nat | a < |text| && a < b && IsLineStart(text, a) ensures Right(lang, t, text, a) {
        RightBefore(lang, t, text, b, a);
      }
    }
    if forall a: nat :: a < |text| && a < b && IsLineStart(text, a) ==> Right(lang, t, text, a) {
      AllBefore(lang, t, text, b);
    }
  }

  lemma RightBefore(lang: Language, t: Segment, text: string, b: int, a: nat)
    requires lang.Consuming() && AnalyzedTo(lang, t, text, b) && a < |text| && a < b && IsLineStart(text, a)
    ensures Right(lang, t, text, a)
  {
    hide LineIs;
  }

  lemma AllBefore(lang: Language, t: Segment, text: string, b: int)
    requires lang.Consuming() && forall a: nat :: a < |text| && a < b && IsLineStart(text, a) ==> Right(lang, t, text, a)
    ensures AnalyzedTo(lang, t, text, b)
  {
    hide LineIs;
    forall a: nat, e: Context | a < |text| && a < b && IsLineStart(text, a) && EntryIs(lang, t, a, e) ensures LineIs(lang, t, text, a, e) {
      assert Right(lang, t, text, a);
    }
  }

  lemma WrongMoves(lang: Language, t: Segment, u: Segment, s: string, x: string, n: nat, m: nat)
    requires lang.Consuming() && Wrong(lang, t, s, m) && n <= |s| && n <= |x| && s[..n] == x[..n] && Top(s, LineEnd(s, m)) <= n
    requires CleanBefore(u, LineEnd(s, m)) && forall o :: 0 <= o < LineEnd(s, m) ==> ContextAt(u, o) == ContextAt(t, o)
    ensures Wrong(lang, u, x, m)
  {
    hide Right, AnalyzedTo, Dirty, ContextAt;
    var e := LineEnd(s, m);
    TextBefore(x, s, n, m);
    CleanLine(u, x, m, e);
    if Dirty(u.children, 0, m) { DirtyWiden(u.children, 0, m, 0, e); }
    LinesRight(lang, t, s, m);
    LinesRight(lang, u, x, m);
    forall a: nat | a < |x| && a < m && IsLineStart(x, a) ensures Right(lang, u, x, a) {
      PrefixStart(s, x, n, a);
      LinesBefore(s, a, m);
      TextBefore(x, s, n, a);
      EntryBeside(lang, t, u, s, x, a, e);
    }
    EntryBeside(lang, t, u, s, x, m, e);
  }

  lemma EntryBeside(lang: Language, t: Segment, u: Segment, s: string, x: string, a: nat, e: nat)
    requires lang.Consuming() && a < |s| && a < |x| && LineEnd(x, a) == LineEnd(s, a) <= e && s[a..LineEnd(s, a)] == x[a..LineEnd(x, a)]
    requires forall o :: 0 <= o < e ==> ContextAt(u, o) == ContextAt(t, o)
    ensures Right(lang, t, s, a) <==> Right(lang, u, x, a)
  {
    hide Right, LineEnd;
    if a > 0 {
      RightAlike(lang, t, u, s, x, a);
    } else {
      FirstAlike(lang, t, u, s, x);
    }
  }

  lemma FirstAlike(lang: Language, t: Segment, u: Segment, s: string, x: string)
    requires lang.Consuming() && s != "" && x != "" && LineEnd(x, 0) == LineEnd(s, 0) && s[0..LineEnd(s, 0)] == x[0..LineEnd(x, 0)]
    requires forall o :: 0 <= o < LineEnd(s, 0) ==> ContextAt(u, o) == ContextAt(t, o)
    ensures Right(lang, t, s, 0) <==> Right(lang, u, x, 0)
  {
    hide LineIs, ContextAt, LineEnd;
    LineAlike(lang, t, u, s, x, 0, Root);
  }

  lemma PrefixStart(s: string, x: string, n: nat, a: nat)
    requires n <= |s| && n <= |x| && s[..n] == x[..n] && a <= n && IsLineStart(x, a)
    ensures IsLineStart(s, a)
  {
    if a > 0 { assert s[..n][a - 1] == x[..n][a - 1]; }
  }

  lemma WrongAnalyzed(lang: Language, u: Segment, r: Segment, text: string, m: nat)
    requires lang.Consuming() && Wrong(lang, u, text, m) && CleanBefore(r, m) && !DirtyLine(r, text, m)
    requires forall o :: 0 <= o < LineEnd(text, m) ==> ContextAt(r, o) == ContextAt(u, o)
    ensures Wrong(lang, r, text, m)
  {
    hide Right, AnalyzedTo, Dirty, DirtyLine, ContextAt;
    LinesRight(lang, u, text, m);
    LinesRight(lang, r, text, m);
    forall a: nat | a < |text| && a < m && IsLineStart(text, a) ensures Right(lang, r, text, a) {
      LinesBefore(text, a, m);
      EntryBeside(lang, u, r, text, text, a, LineEnd(text, m));
    }
    EntryBeside(lang, u, r, text, text, m, LineEnd(text, m));
  }

  /** A wrong line that is not the last one stays wrong whatever more is analyzed. */
  lemma WrongOver(lang: Language, u: Segment, r: Segment, x: string, stale: set<int>, left: set<int>, swallowed: set<int>, m: int)
    requires lang.Consuming() && Sound(u, x) && Updated(lang, u, r, x, stale, left, swallowed)
    requires Wrong(lang, u, x, m) && IsLineStart(x, LineEnd(x, m)) && CleanBefore(u, LineEnd(x, m))
    ensures Wrong(lang, r, x, m)
  {
    hide Consistent, EndSettled, Beyond, Blamed, Stray, LosesMark, Doubt, DoubtEnds, Dirty, LineIs, EntryIs, Right, AnalyzedTo;
    var e := LineEnd(x, m);
    assert CleanBefore(r, e) && Behind(u, r, x, e, stale, left);
    CleanLine(r, x, m, e);
    if Dirty(r.children, 0, m) { DirtyWiden(r.children, 0, m, 0, e); }
    WrongAnalyzed(lang, u, r, x, m);
  }

  /** The region of the call, if there is one, begins after the line. */
  predicate Spares(p: Pass, m: int) {
    p.region.empty || (0 <= m < |p.s| && Top(p.s, LineEnd(p.s, m)) <= p.region.start)
  }

  /** A wrong line stays wrong over a call that spares it. */
  lemma WrongStays(lang: Language, p: Pass, missed: set<int>, m: int)
    requires lang.Consuming() && IsPass(lang, p) && Consistent(lang, p.t, p.s, -1, missed) && Wrong(lang, p.t, p.s, m) && Spares(p, m)
    ensures Wrong(lang, p.r, p.x, m)
  {
    hide Consistent, EndSettled, Updated, LineIs, EntryIs, EditMissed, Placed, Follows, SoundUpdate, Right, AnalyzedTo, Dirty, DirtyLine;
    if !p.region.empty {
      var e := LineEnd(p.s, m);
      WrongEnds(lang, p.t, p.s, m);
      PassTerminators(lang, p.t, p.s, missed);
      BeforeRegion(lang, p.t, p.u, p.s, p.x, p.region.start, p.region.end, p.region.delta, e);
      WrongMoves(lang, p.t, p.u, p.s, p.x, p.region.start, m);
    }
    DoneStays(lang, p.u, p.r, p.x, p.stale, p.left, p.swallowed, m);
    WrongAnalyzed(lang, p.u, p.r, p.x, m);
  }

  lemma PassTerminators(lang: Language, t: Segment, s: string, missed: set<int>)
    requires lang.Consuming() && Consistent(lang, t, s, -1, missed)
    ensures TerminatorsOk(lang, t, s)
  {
  }

  lemma WrongEnds(lang: Language, t: Segment, s: string, m: nat)
    requires lang.Consuming() && Wrong(lang, t, s, m) && Top(s, LineEnd(s, m)) <= |s|
    ensures s[LineEnd(s, m) - 1] == '\n' && CleanBefore(t, LineEnd(s, m))
  {
    var e := LineEnd(s, m);
    if Dirty(t.children, 0, e) { DirtySplit(t.children, 0, m, e); }
  }

  lemma PassConsistent(lang: Language, p: Pass)
    requires lang.Consuming() && IsPass(lang, p)
    ensures Consistent(lang, p.r, p.x, -1, p.left)
  {
  }

  /** And over a whole run of calls that spare it: the tree is not the scan then. */
  lemma {:induction false} WrongRun(lang: Language, passes: seq<Pass>, t: Segment, s: string, missed: set<int>, r: Segment, x: string, left: set<int>, m: int)
    requires lang.Consuming() && Chain(lang, passes, t, s, missed, r, x, left)
    requires Consistent(lang, t, s, -1, missed) && Wrong(lang, t, s, m)
    requires forall i :: 0 <= i < |passes| ==> Spares(passes[i], m)
    ensures Wrong(lang, r, x, m) && !IsScan(lang, r, x)
    decreases |passes|
  {
    hide Consistent, IsPass, Wrong, Spares, IsScan;
    if passes == [] {
      WrongIsNotScan(lang, t, s, m);
    } else {
      var p := passes[0];
      assert Spares(passes[0], m);
      WrongStays(lang, p, missed, m);
      PassConsistent(lang, p);
      forall i | 0 <= i < |passes[1..]| ensures Spares(passes[1..][i], m) {
        assert passes[1..][i] == passes[i + 1];
      }
      WrongRun(lang, passes[1..], p.r, p.x, p.left, r, x, left, m);
    }
  }

  /** The first call of a run with a fault has a first line that may go wrong; if it does, and
      the regions of all later calls begin after it, the tree is not the scan in the end. */
  lemma {:induction false} FaultyRun(lang: Language, passes: seq<Pass>, t: Segment, s: string, missed: set<int>, r: Segment, x: string, left: set<int>, k: nat) returns (b: int)
    requires lang.Consuming() && Chain(lang, passes, t, s, missed, r, x, left) && missed == {} && Regular(t, s)
    requires k < |passes| && !Faultless(passes[k]) && forall i :: 0 <= i < k ==> Faultless(passes[i])
    ensures var p := passes[k];
      && IsPass(lang, p) && Least(p.u, p.x, p.stale, p.swallowed, b) && (Doubt(p.u, p.x, p.stale, b) || b in p.swallowed)
      && (Wrong(lang, p.r, p.x, b) && (forall i :: k < i < |passes| ==> Spares(passes[i], b)) ==> Wrong(lang, r, x, b) && !IsScan(lang, r, x))
    decreases |passes|
  {
    hide IsPass, Wrong, Spares, IsScan, Faultless, Least, Doubt, Regular, Consistent;
    var p, rest := passes[0], passes[1..];
    if k == 0 {
      b := FirstFault(lang, p);
      if Wrong(lang, p.r, p.x, b) && forall i :: k < i < |passes| ==> Spares(passes[i], b) {
        PassConsistent(lang, p);
        forall i | 0 <= i < |rest| ensures Spares(rest[i], b) {
          assert rest[i] == passes[i + 1];
        }
        WrongRun(lang, rest, p.r, p.x, p.left, r, x, left, b);
      }
    } else {
      FaultlessPass(lang, p);
      assert rest[k - 1] == passes[k];
      forall i | 0 <= i < k - 1 ensures Faultless(rest[i]) {
        assert rest[i] == passes[i + 1];
      }
      b := FaultyRun(lang, rest, p.r, p.x, p.left, r, x, left, k - 1);
      if forall i :: k < i < |passes| ==> Spares(passes[i], b) {
        forall i | k - 1 < i < |rest| ensures Spares(rest[i], b) {
          assert rest[i] == passes[i + 1];
        }
      }
    }
  }
}
