/** The contexts that the segments of a tree hold, and how they are given back. */
module SegmentContexts {
  import opened Wrappers
  import opened Contexts
  import opened SegmentTree
  import opened SegmentCreate
  import opened ContextPool

  /** The contexts of a list of siblings and of everything below them, once for each
      segment. */
  function ContextsIn(cs: seq<Segment>): multiset<Context> {
    if cs == [] then multiset{}
    else (if cs[0].context.Some? then multiset{cs[0].context.value} else multiset{}) + ContextsIn(cs[0].children) + ContextsIn(cs[1..])
  }

  lemma {:induction false} ContextsAppend(x: seq<Segment>, y: seq<Segment>)
    ensures ContextsIn(x + y) == ContextsIn(x) + ContextsIn(y)
    decreases x
  {
    if x == [] {
      assert x + y == y;
    } else {
      assert (x + y)[1..] == x[1..] + y;
      ContextsAppend(x[1..], y);
    }
  }

  /** Every context in use is below the toplevel one or below one in use. */
  predicate Rooted(uses: multiset<Context>) {
    forall c :: c in uses ==> c.Child? && (c.parent == Root || c.parent in uses)
  }

  /** The contexts of siblings are below the parent's, or below one another. */
  lemma {:induction false} BelowParent(cs: seq<Segment>, lo: int, hi: int, outer: Context)
    requires ValidForest(cs, lo, hi, Some(outer))
    ensures forall c :: c in ContextsIn(cs) ==> c.Child? && (c.parent == outer || c.parent in ContextsIn(cs)) && c.Depth() > outer.Depth()
    decreases cs
  {
    if cs != [] {
      var s := cs[0];
      BelowParent(cs[1..], s.endAt, hi, outer);
      if s.context.Some? {
        BelowParent(s.children, s.startAt, s.endAt, s.context.value);
      }
      forall c | c in ContextsIn(cs) ensures c.Child? && (c.parent == outer || c.parent in ContextsIn(cs)) && c.Depth() > outer.Depth() {
        if c in ContextsIn(cs[1..]) {
        } else if c in ContextsIn(s.children) {
          assert s.context.value in ContextsIn(cs);
        }
      }
    }
  }

  lemma TreeIsRooted(root: Segment)
    requires ValidRoot(root)
    ensures Rooted(ContextsIn(root.children))
  {
    BelowParent(root.children, 0, root.endAt, Root);
  }

  /** `create_segment` takes one more reference. */
  lemma CreatedUses(cs: seq<Segment>, k: nat, x: Segment)
    requires k <= |cs| && x.children == []
    ensures ContextsIn(SegmentCreate.Link(cs, k, x)) == ContextsIn(cs) + if x.context.Some? then multiset{x.context.value} else multiset{}
  {
    assert cs == cs[..k] + cs[k..] && SegmentCreate.Link(cs, k, x) == cs[..k] + [x] + cs[k..];
    ContextsAppend(cs[..k], cs[k..]);
    ContextsAppend(cs[..k] + [x], cs[k..]);
    ContextsAppend(cs[..k], [x]);
  }

  /** What `context_unref` asks for, once everything inside the segment is destroyed. */
  lemma LastUse(uses: multiset<Context>, rest: multiset<Context>, after: seq<Segment>, lo: int, hi: int, outer: Context, c: Context)
    requires ValidForest(after, lo, hi, Some(outer)) && Rooted(rest) && c.Child? && c.parent == outer
    requires uses == multiset{c} + (ContextsIn(after) + rest)
    ensures uses[c] > 1 || forall d :: d in uses && d.Child? ==> d.parent != c
  {
    BelowParent(after, lo, hi, outer);
    if uses[c] <= 1 {
      forall d | d in uses && d.Child? ensures d.parent != c {
        assert c !in ContextsIn(after) && c !in rest;
        assert outer.Depth() < c.Depth();
      }
    }
  }

  /** `segment_destroy` of siblings, each after its children: exactly their references are
      given back. */
  method DestroyAll(pool: Pool, cs: seq<Segment>, ghost lo: int, ghost hi: int, outer: Context, ghost rest: multiset<Context>)
    requires pool.Valid() && ValidForest(cs, lo, hi, Some(outer)) && Rooted(rest) && (outer == Root || outer in rest)
    requires pool.uses == ContextsIn(cs) + rest
    modifies pool`table, pool`uses
    ensures pool.Valid() && pool.uses == rest
    decreases cs
  {
    hide Pool.Valid, ContextsIn, Rooted, ValidForest;
    if cs == [] {
      NoContexts(rest);
      return;
    }
    var s := cs[0];
    FirstContexts(cs, lo, hi, outer, rest);
    if s.context.Some? {
      var c := s.context.value;
      DestroyAll(pool, s.children, s.startAt, s.endAt, c, multiset{c} + (ContextsIn(cs[1..]) + rest));
      LastUse(pool.uses, rest, cs[1..], s.endAt, hi, outer, c);
      pool.Release(c);
    }
    DestroyAll(pool, cs[1..], s.endAt, hi, outer, rest);
  }

  lemma NoContexts(rest: multiset<Context>)
    ensures ContextsIn([]) + rest == rest
  {
  }

  /** The first sibling: what is below it goes first, and its own context with the rest
      is still rooted. */
  lemma FirstContexts(cs: seq<Segment>, lo: int, hi: int, outer: Context, rest: multiset<Context>)
    requires cs != [] && ValidForest(cs, lo, hi, Some(outer)) && Rooted(rest) && (outer == Root || outer in rest)
    ensures ValidForest(cs[1..], cs[0].endAt, hi, Some(outer))
    ensures cs[0].context.None? ==> ContextsIn(cs) == ContextsIn(cs[1..])
    ensures cs[0].context.Some? ==>
      var s := cs[0]; var c := s.context.value; var more := multiset{c} + (ContextsIn(cs[1..]) + rest);
        && c.Child? && c.parent == outer && c in more && ContextsIn(cs) + rest == ContextsIn(s.children) + more
        && ValidForest(s.children, s.startAt, s.endAt, Some(c)) && Rooted(more)
        && more - multiset{c} == ContextsIn(cs[1..]) + rest
  {
    hide Rooted;
    var s := cs[0];
    if s.context.None? {
      assert ContextsIn(s.children) == multiset{};
    } else {
      BelowParent(cs[1..], s.endAt, hi, outer);
      OneMore(s.context.value, outer, ContextsIn(cs[1..]), rest);
      Rearranged(s.context.value, ContextsIn(s.children), ContextsIn(cs[1..]), rest);
    }
  }

  lemma OneMore(c: Context, outer: Context, after: multiset<Context>, rest: multiset<Context>)
    requires c.Child? && c.parent == outer && Rooted(rest) && (outer == Root || outer in rest)
    requires forall d :: d in after ==> d.Child? && (d.parent == outer || d.parent in after)
    ensures Rooted(multiset{c} + (after + rest))
  {
    var more := multiset{c} + (after + rest);
    forall d | d in more ensures d.Child? && (d.parent == Root || d.parent in more) {
      assert d == c || d in after || d in rest;
    }
  }

  lemma Rearranged(c: Context, inside: multiset<Context>, after: multiset<Context>, rest: multiset<Context>)
    ensures (multiset{c} + inside + after) + rest == inside + (multiset{c} + (after + rest))
    ensures (multiset{c} + (after + rest)) - multiset{c} == after + rest && c in multiset{c} + (after + rest)
  {
  }

  /** Detaching a buffer leaves no use, and so only the toplevel context. */
  method DestroyTree(pool: Pool, root: Segment)
    requires pool.Valid() && ValidRoot(root) && pool.uses == ContextsIn(root.children)
    modifies pool`table, pool`uses
    ensures pool.Valid() && pool.uses == multiset{}
  {
    hide Pool.Valid;
    DestroyAll(pool, root.children, 0, root.endAt, Root, multiset{});
  }
}
