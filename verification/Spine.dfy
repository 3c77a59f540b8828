/** Building segments along the open end of the tree: `segment_extend`,
    `create_segment` under the current state, and `segment_merge`. */
module Spine {
  import opened Wrappers
  import opened Contexts
  import opened SegmentTree
  import opened SegmentErase
  import opened SegmentCreate
  import opened SegmentLookup
  import opened InvalidList
  import opened Dirt

  /** The segments on `path` are the open ones at offset `x` of a line that ends at
      `le`: each ends at `x`, whatever hangs left of them ends at or before `x`, and
      whatever hangs right of them belongs to the text from `le` on. */
  predicate Open(s: Segment, path: Path, x: int, le: int)
    decreases path
  {
    && s.IsContainer()
    && s.startAt <= x
    && if path == [] then
         forall i :: 0 <= i < |s.children| ==> s.children[i].endAt <= x || le <= s.children[i].startAt
       else
         && path[0] < |s.children|
         && s.children[path[0]].endAt == x
         && (forall i :: path[0] < i < |s.children| ==> le <= s.children[i].startAt)
         && Open(s.children[path[0]], path[1..], x, le)
  }

  lemma {:induction false} OpenIsPath(s: Segment, path: Path, x: int, le: int)
    requires Open(s, path, x, le)
    ensures IsPath(s, path) && At(s, path).IsContainer() && At(s, path).startAt <= x
    decreases path
  {
    if path != [] { OpenIsPath(s.children[path[0]], path[1..], x, le); }
  }

  /** After a line was erased the deepest segment before it is open at its start. */
  lemma {:induction false} OpenAtStart(s: Segment, p: Path, ls: int, le: int)
    requires Valid(s) && DeepClear(s.children, ls, le) && ls < le
    requires IsDeepest(s, p, ls - 1) && At(s, p).IsContainer()
    ensures Open(s, p, ls, le)
    decreases p
  {
    WithinSegment(s, p);
    ForestBounds(s.children, s.startAt, s.endAt, s.context);
    KidsClear(s.children, ls, le);
    if p != [] {
      var c := s.children[p[0]];
      WithinSegment(c, p[1..]);
      assert Clear(c, ls, le);
      forall i | p[0] < i < |s.children| ensures le <= s.children[i].startAt {
        assert Clear(s.children[i], ls, le);
      }
      OpenAtStart(c, p[1..], ls, le);
    } else {
      forall i | 0 <= i < |s.children| ensures s.children[i].endAt <= ls || le <= s.children[i].startAt {
        assert Clear(s.children[i], ls, le);
      }
    }
  }

  lemma {:induction false} KidsClear(cs: seq<Segment>, a: int, b: int)
    requires DeepClear(cs, a, b)
    ensures forall i :: 0 <= i < |cs| ==> Clear(cs[i], a, b) && DeepClear(cs[i].children, a, b)
    decreases cs
  {
    if cs != [] { KidsClear(cs[1..], a, b); }
  }

  lemma OpenAtZero(root: Segment, le: int)
    requires ValidRoot(root) && DeepClear(root.children, 0, le) && 0 < le
    ensures Open(root, [], 0, le)
  {
    ForestBounds(root.children, 0, root.endAt, root.context);
    KidsClear(root.children, 0, le);
    forall i | 0 <= i < |root.children| ensures le <= root.children[i].startAt {
      assert Clear(root.children[i], 0, le);
    }
  }

  /** Closing segments: their ancestors stay open. */
  lemma {:induction false} OpenPrefix(s: Segment, path: Path, n: nat, x: int, le: int)
    requires Valid(s) && Open(s, path, x, le) && n <= |path|
    ensures Open(s, path[..n], x, le)
    decreases path
  {
    if path != [] {
      ForestBounds(s.children, s.startAt, s.endAt, s.context);
      if n == 0 {
        forall i | 0 <= i < |s.children| ensures s.children[i].endAt <= x || le <= s.children[i].startAt {
          if i < path[0] { assert s.children[i].endAt <= s.children[path[0]].startAt; }
        }
      } else {
        OpenPrefix(s.children[path[0]], path[1..], n - 1, x, le);
        assert path[..n][1..] == path[1..][..n - 1];
      }
    }
  }

  // ----- segment_extend -----

  function Grow(s: Segment, path: Path, z: int): Segment
    requires IsPath(s, path)
    decreases path
  {
    var e := if s.endAt < z then z else s.endAt;
    if path == [] then s.(endAt := e)
    else s.(endAt := e, children := s.children[path[0] := Grow(s.children[path[0]], path[1..], z)])
  }

  /** `segment_extend` from the segment on `path`: up to the first ancestor that
      reaches `z` already. */
  lemma {:induction false} GrowKeepsPath(s: Segment, path: Path, z: int)
    requires IsPath(s, path)
    ensures var r := Grow(s, path, z);
      IsPath(r, path) && Own(At(r, path)) == Own(At(s, path)) && At(r, path).children == At(s, path).children
      && At(r, path).endAt >= z
    decreases path
  {
    if path != [] { GrowKeepsPath(s.children[path[0]], path[1..], z); }
  }

  lemma {:induction false} GrowShape(s: Segment, path: Path, x: int, z: int, le: int)
    requires Valid(s) && Open(s, path, x, le) && IsPath(s, path) && x <= z <= le
    requires s.endAt == x || le <= s.endAt
    ensures var r := Grow(s, path, z); Valid(r) && Open(r, path, z, le)
    decreases path
  {
    var r := Grow(s, path, z);
    ForestBounds(s.children, s.startAt, s.endAt, s.context);
    if path == [] {
      ForestRebound(s.children, s.startAt, s.endAt, s.startAt, r.endAt, s.context);
    } else {
      GrowShape(s.children[path[0]], path[1..], x, z, le);
      ReplaceChild(s, path[0], Grow(s.children[path[0]], path[1..], z), r.endAt);
    }
  }

  /** A child whose end moves right, up to where its next sibling starts. */
  lemma ReplaceChild(s: Segment, i: nat, c: Segment, e: int)
    requires Valid(s) && i < |s.children| && Valid(c) && c.context == s.children[i].context
    requires c.startAt == s.children[i].startAt && c.endAt <= e && s.endAt <= e
    requires forall j :: i < j < |s.children| ==> c.endAt <= s.children[j].startAt
    ensures ValidForest(s.children[i := c], s.startAt, e, s.context)
  {
    hide ValidForest;
    var cs := s.children;
    ForestBounds(cs, s.startAt, s.endAt, s.context);
    SliceShape(cs, s.startAt, s.endAt, s.context, i, i + 1);
    ForestRebound(cs[..i], s.startAt, s.endAt, s.startAt, c.startAt, s.context);
    ForestRebound(cs[i + 1..], EndOf(cs[..i + 1], s.startAt), s.endAt, c.endAt, e, s.context);
    SingleShape(c, c.startAt, c.endAt, s.context);
    JoinShape(cs[..i], s.startAt, c.startAt, [c], c.endAt, s.startAt, s.context);
    JoinShape(cs[..i] + [c], s.startAt, c.endAt, cs[i + 1..], e, s.startAt, s.context);
    assert cs[i := c] == cs[..i] + [c] + cs[i + 1..];
  }

  lemma {:induction false} GrowMarks(s: Segment, path: Path, x: int, z: int, le: int, o: int)
    requires Valid(s) && Open(s, path, x, le) && IsPath(s, path) && x <= z <= le
    ensures MarkAt(Grow(s, path, z), o) == if x <= o < z then Own(At(s, path)) else MarkAt(s, o)
    decreases path
  {
    ForestBounds(s.children, s.startAt, s.endAt, s.context);
    if path == [] {
      if x <= o < z {
        MarkUncovered(s.children, o, Own(s));
      }
    } else {
      var i, c := path[0], s.children[path[0]];
      OpenIsPath(c, path[1..], x, le);
      GrowMarks(c, path[1..], x, z, le, o);
      ChildMark(s, i, c, o);
      ChildMark(s, i, Grow(c, path[1..], z), o);
      assert s.children[i := c] == s.children;
    }
  }

  /** The mark of a character when child `i` is `c`. */
  lemma ChildMark(s: Segment, i: nat, c: Segment, o: int)
    requires Valid(s) && i < |s.children| && c.startAt == s.children[i].startAt && s.children[i].endAt <= c.endAt
    requires forall j :: i < j < |s.children| ==> c.endAt <= s.children[j].startAt
    ensures MarkIn(s.children[i := c], o, Own(s)) ==
      if c.Covers(o) then MarkAt(c, o) else MarkIn(s.children[..i], o, MarkIn(s.children[i + 1..], o, Own(s)))
  {
    var l, r := s.children[..i], s.children[i + 1..];
    ForestBounds(s.children, s.startAt, s.endAt, s.context);
    assert s.children[i := c] == l + ([c] + r);
    MarkAppend(l, [c] + r, o, Own(s));
    MarkAppend([c], r, o, Own(s));
    MarkSingle(c, o, MarkIn(r, o, Own(s)));
    if c.Covers(o) {
      MarkUncovered(l, o, MarkAt(c, o));
    }
  }

  /** `t` has the same invalid segments as `s`, the same lost beginnings, and no
      empty valid segment that `s` has not. */
  ghost predicate SameDirt(s: seq<Segment>, t: seq<Segment>) {
    && (forall x, y :: Dirty(t, x, y) <==> Dirty(s, x, y))
    && (forall q :: NonStart(t, q) <==> NonStart(s, q))
    && (Solid(s) ==> Solid(t))
  }

  lemma SameDirtInList(l: seq<Segment>, m: seq<Segment>, m': seq<Segment>, r: seq<Segment>)
    requires SameDirt(m, m')
    ensures SameDirt(l + (m + r), l + (m' + r))
  {
    forall x, y ensures Dirty(l + (m' + r), x, y) <==> Dirty(l + (m + r), x, y) {
      DirtyAppend(l, m + r, x, y);
      DirtyAppend(m, r, x, y);
      DirtyAppend(l, m' + r, x, y);
      DirtyAppend(m', r, x, y);
    }
    forall q ensures NonStart(l + (m' + r), q) <==> NonStart(l + (m + r), q) {
      NonStartAppend(l, m + r, q);
      NonStartAppend(m, r, q);
      NonStartAppend(l, m' + r, q);
      NonStartAppend(m', r, q);
    }
    SolidAppend(l, m + r);
    SolidAppend(m, r);
    SolidAppend(l, m' + r);
    SolidAppend(m', r);
  }

  /** A valid segment that keeps its start and its isStart flag, does not shrink, and
      whose children have the same dirt. */
  lemma SameDirtSingle(s: Segment, t: Segment)
    requires s.context.Some? && t.context == s.context && t.startAt == s.startAt && t.isStart == s.isStart
    requires s.endAt <= t.endAt && SameDirt(s.children, t.children)
    ensures SameDirt([s], [t])
  {
    forall x, y ensures Dirty([t], x, y) <==> Dirty([s], x, y) {
      DirtySingle(s, x, y);
      DirtySingle(t, x, y);
    }
    forall q ensures NonStart([t], q) <==> NonStart([s], q) {
      NonStartSingle(s, q);
      NonStartSingle(t, q);
    }
    SolidSingle(s);
    SolidSingle(t);
  }

  /** Extending open segments changes neither what is to be analyzed nor where
      segments begin. */
  lemma {:induction false} GrowDirt(s: Segment, path: Path, x: int, z: int, le: int)
    requires Open(s, path, x, le) && IsPath(s, path)
    ensures SameDirt(s.children, Grow(s, path, z).children)
    decreases path
  {
    if path != [] {
      var i, c := path[0], s.children[path[0]];
      var l, r, c' := s.children[..i], s.children[i + 1..], Grow(c, path[1..], z);
      GrowDirt(c, path[1..], x, z, le);
      SameDirtSingle(c, c');
      SameDirtInList(l, [c], [c'], r);
      assert s.children == l + ([c] + r);
      assert s.children[i := c'] == l + ([c'] + r);
    }
  }

  // ----- create_segment below the current state -----

  function AddAt(s: Segment, path: Path, k: nat, n: Segment): Segment
    requires IsPath(s, path) && k <= |At(s, path).children|
    decreases path
  {
    if path == [] then s.(children := Link(s.children, k, n))
    else s.(children := s.children[path[0] := AddAt(s.children[path[0]], path[1..], k, n)])
  }

  /** The new segment `n` is [y, z) with everything open at `z`. */
  ghost predicate Addable(s: Segment, path: Path, k: nat, n: Segment, z: int, le: int) {
    && Open(s, path, z, le) && IsPath(s, path) && k <= |At(s, path).children|
    && IsPosition(At(s, path).children, k, n.startAt, n.endAt)
    && At(s, path).startAt <= n.startAt <= n.endAt == z <= At(s, path).endAt
    && z <= le
    && n.children == [] && Fits(n.context, At(s, path).context) && n.context.Some? && n.isStart
  }

  lemma {:induction false} AddShape(s: Segment, path: Path, k: nat, n: Segment, z: int, le: int)
    requires Valid(s) && Addable(s, path, k, n, z, le)
    ensures var r := AddAt(s, path, k, n); Valid(r) && Open(r, path, z, le)
    decreases path
  {
    ForestBounds(s.children, s.startAt, s.endAt, s.context);
    if path == [] {
      LinkShape(s.children, s.startAt, s.endAt, s.context, k, n);
      var cs := Link(s.children, k, n);
      forall i | 0 <= i < |cs| ensures cs[i].endAt <= z || le <= cs[i].startAt {
        if i < k { assert cs[i] == s.children[i]; }
        if i > k { assert cs[i] == s.children[i - 1]; }
      }
    } else {
      var c := s.children[path[0]];
      AddShape(c, path[1..], k, n, z, le);
      ReplaceChild(s, path[0], AddAt(c, path[1..], k, n), s.endAt);
    }
  }

  /** The new segment, when it is a container, is the new innermost open one. */
  lemma {:induction false} AddOpens(s: Segment, path: Path, k: nat, n: Segment, z: int, le: int)
    requires Addable(s, path, k, n, z, le) && n.IsContainer()
    requires forall i :: k <= i < |At(s, path).children| ==> le <= At(s, path).children[i].startAt
    ensures var r := AddAt(s, path, k, n); Open(r, path + [k], z, le) && IsPath(r, path + [k]) && At(r, path + [k]) == n
    decreases path
  {
    if path == [] {
      var cs := Link(s.children, k, n);
      forall i | k < i < |cs| ensures le <= cs[i].startAt {
        assert cs[i] == s.children[i - 1];
      }
      assert ([] + [k])[1..] == [];
    } else {
      assert (path + [k])[1..] == path[1..] + [k];
      AddOpens(s.children[path[0]], path[1..], k, n, z, le);
    }
  }

  lemma {:induction false} AddKeepsPath(s: Segment, path: Path, k: nat, n: Segment)
    requires IsPath(s, path) && k <= |At(s, path).children|
    ensures var r := AddAt(s, path, k, n); IsPath(r, path) && Own(At(r, path)) == Own(At(s, path)) && At(r, path).endAt == At(s, path).endAt
    decreases path
  {
    if path != [] { AddKeepsPath(s.children[path[0]], path[1..], k, n); }
  }

  lemma {:induction false} AddMarks(s: Segment, path: Path, k: nat, n: Segment, z: int, le: int, o: int)
    requires Valid(s) && Addable(s, path, k, n, z, le)
    ensures MarkAt(AddAt(s, path, k, n), o) == if n.Covers(o) then Own(n) else MarkAt(s, o)
    decreases path
  {
    ForestBounds(s.children, s.startAt, s.endAt, s.context);
    if path == [] {
      LinkMarks(s.children, s.startAt, s.endAt, s.context, k, n, o, Own(s));
      assert MarkAt(n, o) == Own(n);
    } else {
      var i, c := path[0], s.children[path[0]];
      WithinSegment(c, path[1..]);
      AddMarks(c, path[1..], k, n, z, le, o);
      ChildMark(s, i, c, o);
      ChildMark(s, i, AddAt(c, path[1..], k, n), o);
      assert s.children[i := c] == s.children;
    }
  }

  lemma {:induction false} AddDirt(s: Segment, path: Path, k: nat, n: Segment, z: int, le: int)
    requires Addable(s, path, k, n, z, le) && n.startAt < n.endAt
    ensures SameDirt(s.children, AddAt(s, path, k, n).children)
    decreases path
  {
    hide SameDirt;
    if path == [] {
      var l, r := s.children[..k], s.children[k..];
      assert s.children == l + ([] + r) && Link(s.children, k, n) == l + ([n] + r);
      NewDirt(n);
      SameDirtInList(l, [], [n], r);
    } else {
      var i, c := path[0], s.children[path[0]];
      var l, r, c' := s.children[..i], s.children[i + 1..], AddAt(c, path[1..], k, n);
      AddDirt(c, path[1..], k, n, z, le);
      OpenIsPath(c, path[1..], z, le);
      SameDirtSingle(c, c');
      SameDirtInList(l, [c], [c'], r);
      assert s.children == l + ([c] + r);
      assert s.children[i := c'] == l + ([c'] + r);
    }
  }

  lemma NewDirt(n: Segment)
    requires n.context.Some? && n.isStart && n.children == [] && n.startAt < n.endAt
    ensures SameDirt([], [n])
  {
    forall x, y ensures !Dirty([n], x, y) { DirtySingle(n, x, y); }
    forall q ensures !NonStart([n], q) { NonStartSingle(n, q); }
    SolidSingle(n);
  }

  // ----- the contexts along a path -----

  /** The context of the segment on a path has the contexts of the segments above it
      as its ancestors. */
  lemma {:induction false} PathDepth(s: Segment, path: Path)
    requires Valid(s) && s.context.Some? && IsPath(s, path) && At(s, path).context.Some?
    ensures At(s, path).context.value.Depth() == s.context.value.Depth() + |path|
    decreases path
  {
    if path != [] {
      ChildBounds(s, path[0]);
      var c := s.children[path[0]];
      PathDepth(c, path[1..]);
    }
  }

  lemma ParentContext(s: Segment, path: Path)
    requires Valid(s) && s.context.Some? && IsPath(s, path) && path != [] && At(s, path).context.Some?
    ensures IsPath(s, path[..|path| - 1]) && At(s, path).context.value.Child?
    ensures At(s, path[..|path| - 1]).context == Some(At(s, path).context.value.parent)
  {
    ParentOf(s, path);
    var up := At(s, path[..|path| - 1]);
    ForestBounds(up.children, up.startAt, up.endAt, up.context);
  }
}
