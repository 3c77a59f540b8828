/** Highlighting tags: their priorities decide which of two overlapping ones shows. */
module StyleTags {
  import opened Wrappers
  import opened Contexts
  import opened Language
  import opened SegmentTree

  predicate Descending(tags: seq<nat>) {
    forall i, j :: 0 <= i < j < |tags| ==> tags[i] > tags[j]
  }

  /** A tag ranks above the parent's. */
  predicate Above(tag: nat, parent: Option<nat>) {
    parent.None? || tag > parent.value
  }

  /** `tag` is the lowest of the list that ranks above the parent's. */
  ghost predicate Lowest(tag: nat, list: seq<nat>, parent: Option<nat>) {
    tag in list && Above(tag, parent) && forall t :: t in list && Above(t, parent) ==> tag <= t
  }

  ghost predicate NoneAbove(list: seq<nat>, parent: Option<nat>) {
    forall t :: t in list ==> !Above(t, parent)
  }

  // ----- the tags of each style -----

  /** `owners` names the style of each tag: every list is strictly descending and holds
      tags of its own style only. */
  ghost predicate ListsOk(tags: map<string, seq<nat>>, owners: seq<string>) {
    forall s :: s in tags ==> ListOk(tags[s], owners, s)
  }

  ghost predicate ListOk(list: seq<nat>, owners: seq<string>, style: string) {
    Descending(list) && forall i :: 0 <= i < |list| ==> list[i] < |owners| && owners[list[i]] == style
  }

  function Of(tags: map<string, seq<nat>>, style: string): seq<nat> {
    if style in tags then tags[style] else []
  }

  lemma Created(tags: map<string, seq<nat>>, owners: seq<string>, style: string)
    requires ListsOk(tags, owners)
    ensures ListsOk(tags[style := [|owners|] + Of(tags, style)], owners + [style])
  {
    var after := tags[style := [|owners|] + Of(tags, style)];
    assert ListOk(Of(tags, style), owners, style);
    forall s | s in after ensures ListOk(after[s], owners + [style], s) {
      if s != style { assert ListOk(tags[s], owners, s); }
    }
  }

  /** A new tag is the highest, so it changes no choice that was made. */
  lemma NewIsHighest(tags: map<string, seq<nat>>, owners: seq<string>, style: string)
    requires ListsOk(tags, owners)
    ensures forall tag: nat, parent, s :: Lowest(tag, Of(tags, s), parent) ==> Lowest(tag, Of(tags[style := [|owners|] + Of(tags, style)], s), parent)
  {
    var after := tags[style := [|owners|] + Of(tags, style)];
    forall tag: nat, parent, s | Lowest(tag, Of(tags, s), parent) ensures Lowest(tag, Of(after, s), parent) {
      assert ListOk(Of(tags, s), owners, s);
    }
  }

  // ----- the contexts -----

  /** The live contexts with their styles, and the tags that contexts and sub-patterns
      were given. */
  datatype Given = Given(styles: map<Context, Option<string>>, contexts: map<Context, nat>, subs: map<(Context, nat), nat>)
  {
    /** The context is drawn in a style other than this one. */
    predicate Differs(c: Context, style: string) {
      c in styles && styles[c].Some? && styles[c].value != style
    }
  }

  function ParentOf(c: Context): Option<Context> {
    if c.Root? then None else Some(c.parent)
  }

  function Height(c: Option<Context>): nat {
    if c.None? then 0 else c.value.Depth() + 1
  }

  /** `get_parent_tag`: the tag of the nearest differently styled context from `c` up. */
  function ParentTag(g: Given, c: Option<Context>, style: string): Option<nat>
    decreases Height(c)
  {
    if c.None? then None
    else if g.Differs(c.value, style) then (if c.value in g.contexts then Some(g.contexts[c.value]) else None)
    else ParentTag(g, ParentOf(c.value), style)
  }

  /** From `c` up every context is live, and every styled one has its tag. */
  predicate TaggedUp(g: Given, c: Option<Context>)
    decreases Height(c)
  {
    c.Some? ==>
      && c.value in g.styles && (g.styles[c.value].Some? ==> c.value in g.contexts)
      && TaggedUp(g, ParentOf(c.value))
  }

  /** Every tag was chosen as `get_tag_for_parent` chooses, and would be chosen again. */
  ghost predicate Chosen(tags: map<string, seq<nat>>, subStyles: (Context, nat) -> Option<string>, g: Given) {
    && (forall c :: c in g.styles ==> c.Child? ==> c.parent in g.styles)
    && (forall c :: c in g.contexts ==> ContextOk(tags, g, c))
    && (forall c, i :: (c, i) in g.subs ==> SubOk(tags, subStyles, g, c, i))
  }

  ghost predicate ContextOk(tags: map<string, seq<nat>>, g: Given, c: Context)
    requires c in g.contexts
  {
    && c in g.styles && g.styles[c].Some? && TaggedUp(g, ParentOf(c))
    && Lowest(g.contexts[c], Of(tags, g.styles[c].value), ParentTag(g, ParentOf(c), g.styles[c].value))
  }

  ghost predicate SubOk(tags: map<string, seq<nat>>, subStyles: (Context, nat) -> Option<string>, g: Given, c: Context, i: nat)
    requires (c, i) in g.subs
  {
    && subStyles(c, i).Some? && TaggedUp(g, Some(c))
    && Lowest(g.subs[(c, i)], Of(tags, subStyles(c, i).value), ParentTag(g, Some(c), subStyles(c, i).value))
  }

  // ----- what shows -----

  /** A parent tag is that of a context on the way up. */
  lemma {:induction false} Nearest(g: Given, c: Option<Context>, style: string) returns (r: Context)
    requires ParentTag(g, c, style).Some?
    ensures c.Some? && IsAncestor(r, c.value) && g.Differs(r, style) && r in g.contexts && ParentTag(g, c, style) == Some(g.contexts[r])
    decreases Height(c)
  {
    if g.Differs(c.value, style) {
      r := c.value;
    } else {
      r := Nearest(g, ParentOf(c.value), style);
    }
  }

  lemma {:induction false} TaggedAbove(g: Given, c: Context, d: Context)
    requires TaggedUp(g, Some(c)) && IsAncestor(d, c)
    ensures TaggedUp(g, Some(d)) && d in g.styles && (g.styles[d].Some? ==> d in g.contexts)
    decreases c
  {
    if c != d { TaggedAbove(g, c.parent, d); }
  }

  lemma {:induction false} Farther(c: Context, d: Context, e: Context)
    requires IsAncestor(d, c) && IsAncestor(e, d)
    ensures IsAncestor(e, c) && (e != d ==> e != c) && e.Depth() <= d.Depth() <= c.Depth() && (e != d ==> e.Depth() < d.Depth())
    decreases c, d
  {
    if c != d {
      Farther(c.parent, d, e);
    } else if d != e {
      Farther(d.parent, d.parent, e);
    }
  }

  /** Down the tree the tags rise: a context ranks above every context around it that is
      drawn in another style, and at least as high as one drawn in the same. */
  lemma {:induction false} Rises(tags: map<string, seq<nat>>, subStyles: (Context, nat) -> Option<string>, g: Given, c: Context, d: Context)
    requires Chosen(tags, subStyles, g) && c in g.contexts && c.Child? && IsAncestor(d, c.parent) && d in g.contexts
    ensures g.contexts[d] <= g.contexts[c] && (g.styles[d] != g.styles[c] ==> g.contexts[d] < g.contexts[c])
    decreases c, 0
  {
    assert ContextOk(tags, g, c) && ContextOk(tags, g, d);
    var x := g.styles[c].value;
    if g.styles[d] != g.styles[c] {
      AllBelow(tags, subStyles, g, c.parent, x, d);
    } else {
      var p := ParentTag(g, ParentOf(d), x);
      if p.Some? {
        var r := Nearest(g, ParentOf(d), x);
        Farther(c.parent, d, d.parent);
        Farther(c.parent, d.parent, r);
        AllBelow(tags, subStyles, g, c.parent, x, r);
      }
      assert Above(g.contexts[c], p);
    }
  }

  lemma {:induction false} AllBelow(tags: map<string, seq<nat>>, subStyles: (Context, nat) -> Option<string>, g: Given, c: Context, style: string, d: Context)
    requires Chosen(tags, subStyles, g) && TaggedUp(g, Some(c)) && IsAncestor(d, c) && g.Differs(d, style)
    ensures d in g.contexts && ParentTag(g, Some(c), style).Some? && g.contexts[d] <= ParentTag(g, Some(c), style).value
    decreases c, 1
  {
    TaggedAbove(g, c, d);
    if g.Differs(c, style) {
      if c != d { Rises(tags, subStyles, g, c, d); }
    } else {
      AllBelow(tags, subStyles, g, c.parent, style, d);
    }
  }

  /** The innermost styled context from `c` up. */
  function Innermost(g: Given, c: Option<Context>): Option<Context>
    decreases Height(c)
  {
    if c.None? then None
    else if c.value in g.styles && g.styles[c.value].Some? then c
    else Innermost(g, ParentOf(c.value))
  }

  /** Of the tags that nested segments put on a character, the highest is one in the style
      of the innermost styled segment. */
  lemma {:induction false} InnermostShows(tags: map<string, seq<nat>>, subStyles: (Context, nat) -> Option<string>, g: Given, c: Context, d: Context)
    requires Chosen(tags, subStyles, g) && TaggedUp(g, Some(c)) && IsAncestor(d, c) && d in g.styles && g.styles[d].Some?
    ensures var e := Innermost(g, Some(c));
      && e.Some? && e.value in g.contexts && d in g.contexts && e.value in g.styles && g.styles[e.value].Some?
      && g.contexts[d] <= g.contexts[e.value] && (g.styles[d] != g.styles[e.value] ==> g.contexts[d] < g.contexts[e.value])
    decreases c
  {
    TaggedAbove(g, c, d);
    if g.styles[c].Some? {
      if d != c { Rises(tags, subStyles, g, c, d); }
    } else {
      InnermostShows(tags, subStyles, g, c.parent, d);
    }
  }

  /** A sub-pattern shows over every context around it that has another style. */
  lemma SubShows(tags: map<string, seq<nat>>, subStyles: (Context, nat) -> Option<string>, g: Given, c: Context, i: nat, d: Context)
    requires Chosen(tags, subStyles, g) && (c, i) in g.subs && IsAncestor(d, c) && subStyles(c, i).Some? && g.Differs(d, subStyles(c, i).value)
    ensures d in g.contexts && g.contexts[d] < g.subs[(c, i)]
  {
    assert SubOk(tags, subStyles, g, c, i);
    AllBelow(tags, subStyles, g, c, subStyles(c, i).value, d);
  }

  // ----- what keeps the choices -----

  lemma TagsGrow(tags: map<string, seq<nat>>, owners: seq<string>, subStyles: (Context, nat) -> Option<string>, g: Given, style: string)
    requires ListsOk(tags, owners) && Chosen(tags, subStyles, g)
    ensures Chosen(tags[style := [|owners|] + Of(tags, style)], subStyles, g)
  {
    hide Of, Lowest, ParentTag, TaggedUp;
    var after := tags[style := [|owners|] + Of(tags, style)];
    NewIsHighest(tags, owners, style);
    forall c | c in g.contexts ensures ContextOk(after, g, c) {
      assert ContextOk(tags, g, c);
    }
    forall c, i | (c, i) in g.subs ensures SubOk(after, subStyles, g, c, i) {
      assert SubOk(tags, subStyles, g, c, i);
    }
  }

  /** A context that had no tag is nobody's tagged ancestor. */
  lemma {:induction false} TagFrame(g: Given, x: Option<Context>, c: Context, tag: nat)
    requires TaggedUp(g, x) && c !in g.contexts
    ensures var h := g.(contexts := g.contexts[c := tag]); TaggedUp(h, x) && forall style :: ParentTag(h, x, style) == ParentTag(g, x, style)
    decreases Height(x)
  {
    if x.Some? { TagFrame(g, ParentOf(x.value), c, tag); }
  }

  lemma ContextGiven(tags: map<string, seq<nat>>, subStyles: (Context, nat) -> Option<string>, g: Given, c: Context, tag: nat)
    requires Chosen(tags, subStyles, g) && c in g.styles && g.styles[c].Some? && c !in g.contexts && TaggedUp(g, ParentOf(c))
    requires Lowest(tag, Of(tags, g.styles[c].value), ParentTag(g, ParentOf(c), g.styles[c].value))
    ensures var h := g.(contexts := g.contexts[c := tag]); Chosen(tags, subStyles, h) && TaggedUp(h, Some(c))
  {
    hide Of, Lowest, ParentTag;
    var h := g.(contexts := g.contexts[c := tag]);
    TagFrame(g, ParentOf(c), c, tag);
    forall d | d in h.contexts ensures ContextOk(tags, h, d) {
      if d != c {
        assert ContextOk(tags, g, d);
        TagFrame(g, ParentOf(d), c, tag);
      }
    }
    forall d, i | (d, i) in h.subs ensures SubOk(tags, subStyles, h, d, i) {
      assert SubOk(tags, subStyles, g, d, i);
      TagFrame(g, Some(d), c, tag);
    }
  }

  lemma {:induction false} SubFrame(g: Given, x: Option<Context>, subs: map<(Context, nat), nat>)
    ensures var h := g.(subs := subs); (TaggedUp(h, x) <==> TaggedUp(g, x)) && forall style :: ParentTag(h, x, style) == ParentTag(g, x, style)
    decreases Height(x)
  {
    if x.Some? { SubFrame(g, ParentOf(x.value), subs); }
  }

  lemma SubGiven(tags: map<string, seq<nat>>, subStyles: (Context, nat) -> Option<string>, g: Given, c: Context, i: nat, tag: nat)
    requires Chosen(tags, subStyles, g) && subStyles(c, i).Some? && TaggedUp(g, Some(c))
    requires Lowest(tag, Of(tags, subStyles(c, i).value), ParentTag(g, Some(c), subStyles(c, i).value))
    ensures Chosen(tags, subStyles, g.(subs := g.subs[(c, i) := tag]))
  {
    hide Of, Lowest, ParentTag, TaggedUp;
    var h := g.(subs := g.subs[(c, i) := tag]);
    forall d | d in h.contexts ensures ContextOk(tags, h, d) {
      assert ContextOk(tags, g, d);
      SubFrame(g, ParentOf(d), h.subs);
    }
    forall d, j | (d, j) in h.subs ensures SubOk(tags, subStyles, h, d, j) {
      SubFrame(g, Some(d), h.subs);
      if (d, j) != (c, i) { assert SubOk(tags, subStyles, g, d, j); }
    }
  }

  /** Creating or freeing a context changes nothing from the others up. */
  lemma {:induction false} LiveFrame(g: Given, h: Given, x: Option<Context>, c: Context)
    requires TaggedUp(g, x) && forall d :: d in g.styles && d.Child? ==> d.parent in g.styles && d.parent != c
    requires x != Some(c) && h.styles - {c} == g.styles - {c} && h.contexts - {c} == g.contexts - {c}
    ensures TaggedUp(h, x) && forall style :: ParentTag(h, x, style) == ParentTag(g, x, style)
    decreases Height(x)
  {
    if x.Some? {
      var d := x.value;
      assert d in g.styles - {c} && d in h.styles - {c} && (g.styles - {c})[d] == (h.styles - {c})[d];
      assert d in g.contexts - {c} <==> d in h.contexts - {c};
      assert d in g.contexts ==> (g.contexts - {c})[d] == (h.contexts - {c})[d];
      LiveFrame(g, h, ParentOf(d), c);
    }
  }

  lemma LiveChosen(tags: map<string, seq<nat>>, subStyles: (Context, nat) -> Option<string>, g: Given, h: Given, c: Context)
    requires Chosen(tags, subStyles, g) && forall d :: d in g.styles && d.Child? ==> d.parent != c
    requires c !in h.contexts && h.contexts - {c} == g.contexts - {c} && h.styles - {c} == g.styles - {c}
    requires c in h.styles && c.Child? ==> c.parent in h.styles
    requires forall d, i :: (d, i) in h.subs ==> d != c && (d, i) in g.subs && h.subs[(d, i)] == g.subs[(d, i)]
    ensures Chosen(tags, subStyles, h)
  {
    hide Of, Lowest, ParentTag;
    forall d | d in h.styles && d.Child? ensures d.parent in h.styles {
      if d != c {
        assert d in h.styles - {c} && d in g.styles - {c};
        assert d.parent in g.styles - {c};
      }
    }
    forall d | d in h.contexts ensures ContextOk(tags, h, d) {
      assert d in h.contexts - {c} && d in g.contexts - {c} && (g.contexts - {c})[d] == (h.contexts - {c})[d];
      assert ContextOk(tags, g, d);
      assert d in g.styles - {c} && (g.styles - {c})[d] == (h.styles - {c})[d];
      LiveFrame(g, h, ParentOf(d), c);
    }
    forall d, i | (d, i) in h.subs ensures SubOk(tags, subStyles, h, d, i) {
      assert SubOk(tags, subStyles, g, d, i);
      LiveFrame(g, h, Some(d), c);
    }
  }

  // ----- the choice -----

  lemma FirstIsHighest(list: seq<nat>, parent: Option<nat>)
    requires Descending(list) && (list != [] ==> parent.Some? && list[0] <= parent.value)
    ensures NoneAbove(list, parent)
  {
  }

  lemma OnlyAbove(list: seq<nat>, parent: Option<nat>, tag: nat)
    requires NoneAbove(list, parent) && Above(tag, parent)
    ensures Lowest(tag, [tag] + list, parent)
  {
  }

  /** The parent's tag was made for some other style. */
  lemma ParentOwned(tags: map<string, seq<nat>>, owners: seq<string>, subStyles: (Context, nat) -> Option<string>, g: Given, c: Option<Context>, style: string)
    requires ListsOk(tags, owners) && Chosen(tags, subStyles, g)
    ensures var p := ParentTag(g, c, style); p.Some? ==> p.value < |owners| && owners[p.value] != style
    ensures ListOk(Of(tags, style), owners, style)
  {
    if ParentTag(g, c, style).Some? {
      var r := Nearest(g, c, style);
      assert ContextOk(tags, g, r);
      assert ListOk(Of(tags, g.styles[r].value), owners, g.styles[r].value);
    }
  }

  /** The loop that looks for the lowest tag above the parent's. */
  method LowestAbove(list: seq<nat>, parent: Option<nat>, ghost owners: seq<string>, ghost style: string) returns (tag: nat)
    requires ListOk(list, owners, style) && list != [] && Above(list[0], parent)
    requires parent.Some? ==> parent.value < |owners| && owners[parent.value] != style
    ensures Lowest(tag, list, parent)
  {
    tag := list[0];
    var i := 1;
    while i < |list|
      invariant 1 <= i <= |list| && tag == list[i - 1] && Above(tag, parent)
    {
      if parent.Some? && list[i] < parent.value {
        break;
      }
      tag := list[i];
      i := i + 1;
    }
  }

  /** Only live contexts hold tags. */
  lemma HoldersLive(tags: map<string, seq<nat>>, subStyles: (Context, nat) -> Option<string>, g: Given)
    requires Chosen(tags, subStyles, g)
    ensures (forall c :: c in g.contexts ==> c in g.styles) && forall c, i :: (c, i) in g.subs ==> c in g.styles
  {
    forall c | c in g.contexts ensures c in g.styles {
      assert ContextOk(tags, g, c);
    }
    forall c, i | (c, i) in g.subs ensures c in g.styles {
      assert SubOk(tags, subStyles, g, c, i);
    }
  }

  lemma GivenHasStyle(tags: map<string, seq<nat>>, subStyles: (Context, nat) -> Option<string>, g: Given, c: Context)
    requires Chosen(tags, subStyles, g)
    ensures c in g.contexts ==> c in g.styles && g.styles[c].Some?
  {
    if c in g.contexts { assert ContextOk(tags, g, c); }
  }

  // ----- apply_tags -----

  /** The contexts of the tree are live. */
  predicate AllLive(styles: map<Context, Option<string>>, s: Segment) {
    (s.context.Some? ==> s.context.value in styles) && forall i :: 0 <= i < |s.children| ==> AllLive(styles, s.children[i])
  }

  /** Every segment with text in the range has its tag, and so have those around it. */
  predicate Applied(g: Given, s: Segment, start: int, end: int) {
    s.context.None? || s.startAt >= end || s.endAt <= start ||
    (TaggedUp(g, s.context) &&
     forall i :: 0 <= i < |s.children| ==> Applied(g, s.children[i], if start < s.startAt then s.startAt else start, if s.endAt < end then s.endAt else end))
  }

  lemma {:induction false} StillTagged(g: Given, h: Given, c: Option<Context>)
    requires TaggedUp(g, c) && h.styles == g.styles && h.contexts.Keys >= g.contexts.Keys
    ensures TaggedUp(h, c)
    decreases Height(c)
  {
    if c.Some? { StillTagged(g, h, ParentOf(c.value)); }
  }

  lemma {:induction false} StillApplied(g: Given, h: Given, s: Segment, start: int, end: int)
    requires Applied(g, s, start, end) && h.styles == g.styles && h.contexts.Keys >= g.contexts.Keys
    ensures Applied(h, s, start, end)
    decreases s
  {
    if !(s.context.None? || s.startAt >= end || s.endAt <= start) {
      var from, to := if start < s.startAt then s.startAt else start, if s.endAt < end then s.endAt else end;
      StillTagged(g, h, s.context);
      forall i | 0 <= i < |s.children| ensures Applied(h, s.children[i], from, to) {
        StillApplied(g, h, s.children[i], from, to);
      }
    }
  }

  /** The children from the `i`-th on begin after the range. */
  lemma Beyond(g: Given, s: Segment, i: nat, from: int, to: int)
    requires Valid(s) && i <= |s.children| && (i < |s.children| ==> s.children[i].startAt >= to)
    requires forall k :: 0 <= k < i ==> Applied(g, s.children[k], from, to)
    ensures forall k :: 0 <= k < |s.children| ==> Applied(g, s.children[k], from, to)
  {
    ForestBounds(s.children, s.startAt, s.endAt, s.context);
    forall k | i <= k < |s.children| ensures Applied(g, s.children[k], from, to) {
      if i < k { assert s.children[i].endAt <= s.children[k].startAt; }
    }
  }

  /** So at every character of the range the context there, and all those around it, have
      the tags that `InnermostShows` speaks of. */
  lemma {:induction false} AppliedAt(g: Given, s: Segment, start: int, end: int, o: int)
    requires Applied(g, s, start, end) && s.Covers(o) && start <= o < end && Valid(s)
    ensures TaggedUp(g, MarkAt(s, o).context)
    decreases s, 1
  {
    if s.context.Some? {
      var from, to := if start < s.startAt then s.startAt else start, if s.endAt < end then s.endAt else end;
      ForestBounds(s.children, s.startAt, s.endAt, s.context);
      AppliedIn(g, s.children, from, to, o, Own(s));
    }
  }

  lemma {:induction false} AppliedIn(g: Given, cs: seq<Segment>, start: int, end: int, o: int, outer: Mark)
    requires (forall i :: 0 <= i < |cs| ==> Applied(g, cs[i], start, end) && Valid(cs[i])) && start <= o < end && TaggedUp(g, outer.context)
    ensures TaggedUp(g, MarkIn(cs, o, outer).context)
    decreases cs, 0
  {
    if cs != [] {
      if cs[0].Covers(o) {
        AppliedAt(g, cs[0], start, end, o);
      } else {
        AppliedIn(g, cs[1..], start, end, o, outer);
      }
    }
  }

  // ----- the tag table -----

  class TagTable {
    /** The tags of each style by priority, the newest first. */
    var tags: map<string, seq<nat>>
    var nTags: nat
    /** The styles of the sub-patterns of a context's definition. */
    const subStyles: (Context, nat) -> Option<string>
    /** The live contexts and the tags they hold. */
    var given: Given
    ghost var owners: seq<string>

    ghost predicate Valid()
      reads this
    {
      |owners| == nTags && ListsOk(tags, owners) && Chosen(tags, subStyles, given)
    }

    constructor (subStyles: (Context, nat) -> Option<string>)
      ensures Valid() && tags == map[] && nTags == 0 && given == Given(map[], map[], map[]) && this.subStyles == subStyles
    {
      tags, nTags, owners := map[], 0, [];
      given := Given(map[], map[], map[]);
      this.subStyles := subStyles;
    }

    /** `create_tag`: above all tags created before. */
    method CreateTag(style: string) returns (tag: nat)
      requires Valid()
      modifies this`tags, this`nTags, this`owners
      ensures Valid() && tag == old(nTags) && nTags == old(nTags) + 1 && owners == old(owners) + [style]
      ensures tags == old(tags)[style := [tag] + Of(old(tags), style)]
    {
      hide Chosen, ListsOk;
      Created(tags, owners, style);
      TagsGrow(tags, owners, subStyles, given, style);
      tag := nTags;
      nTags, owners := nTags + 1, owners + [style];
      tags := tags[style := [tag] + Of(tags, style)];
    }

    /** `get_tag_for_parent`: the lowest tag of the style above the parent's, or a new one
        if there is none. */
    method GetTagForParent(style: string, parent: Option<Context>) returns (tag: nat)
      requires Valid() && TaggedUp(given, parent)
      modifies this`tags, this`nTags, this`owners
      ensures Valid() && Lowest(tag, Of(tags, style), ParentTag(given, parent, style))
      ensures (Lowest(tag, Of(old(tags), style), ParentTag(given, parent, style)) && tags == old(tags) && nTags == old(nTags))
           || (tag == old(nTags) && NoneAbove(Of(old(tags), style), ParentTag(given, parent, style)) && tags == old(tags)[style := [tag] + Of(old(tags), style)])
    {
      hide Chosen;
      var parentTag := ParentTag(given, parent, style);
      ParentOwned(tags, owners, subStyles, given, parent, style);
      var list := Of(tags, style);
      if list != [] && (parentTag.None? || list[0] > parentTag.value) {
        tag := LowestAbove(list, parentTag, owners, style);
      } else {
        FirstIsHighest(list, parentTag);
        tag := CreateTag(style);
        OnlyAbove(list, parentTag, tag);
      }
    }

    /** `create_child_context`, or attaching a buffer: a new context has no tags. */
    method NewContext(c: Context, style: Option<string>)
      requires Valid() && c !in given.styles && (c.Child? ==> c.parent in given.styles)
      modifies this`given
      ensures Valid() && given == old(given).(styles := old(given).styles[c := style])
    {
      hide ListsOk;
      var g := given.(styles := given.styles[c := style]);
      HoldersLive(tags, subStyles, given);
      assert g.styles - {c} == given.styles - {c};
      LiveChosen(tags, subStyles, given, g, c);
      given := g;
    }

    /** `context_unref` by the last segment: a context goes after those inside it, and its
        tag pointers go with it.  The tags stay. */
    method FreeContext(c: Context)
      requires Valid() && c in given.styles && forall d :: d in given.styles && d.Child? ==> d.parent != c
      modifies this`given
      ensures Valid() && tags == old(tags) && given.styles == old(given).styles - {c} && given.contexts == old(given).contexts - {c}
    {
      hide ListsOk;
      var g := Given(given.styles - {c}, given.contexts - {c}, map p | p in given.subs && p.0 != c :: given.subs[p]);
      assert g.styles - {c} == g.styles && g.contexts - {c} == g.contexts;
      LiveChosen(tags, subStyles, given, g, c);
      given := g;
    }

    /** `get_context_tag` */
    method ContextTag(c: Context) returns (tag: Option<nat>)
      requires Valid() && c in given.styles && TaggedUp(given, ParentOf(c))
      modifies this
      ensures Valid() && TaggedUp(given, Some(c)) && given.styles == old(given).styles && given.subs == old(given).subs
      ensures tag.Some? <==> given.styles[c].Some?
      ensures tag.Some? ==> c in given.contexts && tag.value == given.contexts[c]
      ensures given.contexts == if given.styles[c].Some? && c !in old(given).contexts then old(given).contexts[c := given.contexts[c]] else old(given).contexts
    {
      hide Chosen, ListsOk, Lowest, ParentTag, Of;
      if given.styles[c].Some? && c !in given.contexts {
        var t := GetTagForParent(given.styles[c].value, ParentOf(c));
        ContextGiven(tags, subStyles, given, c, t);
        given := given.(contexts := given.contexts[c := t]);
      }
      GivenHasStyle(tags, subStyles, given, c);
      tag := if c in given.contexts then Some(given.contexts[c]) else None;
    }

    /** `get_subpattern_tag` */
    method SubpatternTag(c: Context, i: nat) returns (tag: Option<nat>)
      requires Valid() && TaggedUp(given, Some(c))
      modifies this
      ensures Valid() && given.styles == old(given).styles && given.contexts == old(given).contexts && TaggedUp(given, Some(c))
      ensures tag.Some? <==> subStyles(c, i).Some?
      ensures tag.Some? ==> (c, i) in given.subs && tag.value == given.subs[(c, i)]
    {
      hide Chosen, ListsOk, Lowest, ParentTag, Of;
      if subStyles(c, i).None? {
        return None;
      }
      if (c, i) !in given.subs {
        var t := GetTagForParent(subStyles(c, i).value, Some(c));
        SubGiven(tags, subStyles, given, c, i, t);
        SubFrame(given, Some(c), given.subs[(c, i) := t]);
        given := given.(subs := given.subs[(c, i) := t]);
      }
      tag := Some(given.subs[(c, i)]);
    }

    /** `apply_tags`: parents before their children, so every context finds the tag that it
        has to rank above. */
    method ApplyTags(s: Segment, start: int, end: int)
      requires Valid() && SegmentTree.Valid(s) && AllLive(given.styles, s)
      requires s.context.Some? ==> TaggedUp(given, ParentOf(s.context.value))
      modifies this
      ensures Valid() && given.styles == old(given).styles && given.contexts.Keys >= old(given).contexts.Keys
      ensures Applied(given, s, start, end)
      decreases s
    {
      hide Chosen, ListsOk, SegmentTree.ValidForest;
      if s.context.None? || s.startAt >= end || s.endAt <= start {
        return;
      }
      var from, to := if start < s.startAt then s.startAt else start, if s.endAt < end then s.endAt else end;
      var tag := ContextTag(s.context.value);
      ghost var styles, c := given.styles, s.context;
      var i := 0;
      while i < |s.children| && s.children[i].startAt < to
        invariant i <= |s.children| && Valid() && given.styles == styles && TaggedUp(given, c) && given.contexts.Keys >= old(given).contexts.Keys
        invariant forall k :: 0 <= k < i ==> Applied(given, s.children[k], from, to)
      {
        ghost var before := given;
        ChildBounds(s, i);
        if s.children[i].endAt > from {
          ApplyTags(s.children[i], from, to);
        }
        StillTagged(before, given, c);
        forall k | 0 <= k < i ensures Applied(given, s.children[k], from, to) {
          StillApplied(before, given, s.children[k], from, to);
        }
        i := i + 1;
      }
      Beyond(given, s, i, from, to);
    }
  }
}
