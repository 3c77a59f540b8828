/** Removing an invalid segment (`segment_remove`), and how many there are. */
module SegmentRemove {
  import opened Wrappers
  import opened Contexts
  import opened SegmentTree
  import opened SegmentInsert
  import opened InvalidList
  import opened Dirt

  function RemoveAt(s: Segment, p: Path): Segment
    requires p != [] && IsPath(s, p)
    decreases p
  {
    var i := p[0];
    if p[1..] == [] then s.(children := s.children[..i] + s.children[i + 1..])
    else s.(children := s.children[..i] + [RemoveAt(s.children[i], p[1..])] + s.children[i + 1..])
  }

  lemma {:induction false} RemoveShape(s: Segment, p: Path)
    requires Valid(s) && p != [] && IsPath(s, p)
    ensures Valid(RemoveAt(s, p))
    decreases p
  {
    var i, c := p[0], s.children[p[0]];
    ForestBounds(s.children, s.startAt, s.endAt, s.context);
    SliceShape(s.children, s.startAt, s.endAt, s.context, i, i + 1);
    ForestRebound(s.children[..i], s.startAt, s.endAt, s.startAt, c.startAt, s.context);
    ForestRebound(s.children[i + 1..], EndOf(s.children[..i + 1], s.startAt), s.endAt, c.endAt, s.endAt, s.context);
    if p[1..] == [] {
      ForestRebound(s.children[i + 1..], c.endAt, s.endAt, c.startAt, s.endAt, s.context);
      JoinShape(s.children[..i], s.startAt, c.startAt, s.children[i + 1..], s.endAt, s.startAt, s.context);
    } else {
      RemoveShape(c, p[1..]);
      var m := RemoveAt(c, p[1..]);
      SingleShape(m, c.startAt, c.endAt, s.context);
      JoinShape(s.children[..i], s.startAt, c.startAt, [m], c.endAt, s.startAt, s.context);
      JoinShape(s.children[..i] + [m], s.startAt, c.endAt, s.children[i + 1..], s.endAt, s.startAt, s.context);
    }
  }

  /** The parent's path. */
  function Up(p: Path): Path
    requires p != []
  {
    p[..|p| - 1]
  }

  lemma {:induction false} UpIsPath(s: Segment, p: Path)
    requires p != [] && IsPath(s, p)
    ensures IsPath(s, Up(p)) && (p[1..] != [] ==> Up(p) == [p[0]] + Up(p[1..]) && At(s, Up(p)) == At(s.children[p[0]], Up(p[1..])))
    decreases p
  {
    if p[1..] != [] {
      UpIsPath(s.children[p[0]], p[1..]);
      assert Up(p) == [p[0]] + Up(p[1..]);
      assert Up(p)[1..] == Up(p[1..]);
    } else {
      assert Up(p) == [];
    }
  }

  /** The characters of the removed segment get the context of the segment around it, the
      others keep theirs. */
  lemma {:induction false} RemoveContexts(s: Segment, p: Path, o: int)
    requires Valid(s) && p != [] && IsPath(s, p) && At(s, p).IsInvalid()
    ensures IsPath(s, Up(p))
    ensures At(s, p).Covers(o) ==> MarkAt(s, o).context == None && MarkAt(RemoveAt(s, p), o).context == At(s, Up(p)).context
    ensures !At(s, p).Covers(o) ==> MarkAt(RemoveAt(s, p), o).context == MarkAt(s, o).context
    decreases p
  {
    var i, c := p[0], s.children[p[0]];
    var l, r := s.children[..i], s.children[i + 1..];
    UpIsPath(s, p);
    ForestBounds(s.children, s.startAt, s.endAt, s.context);
    assert s.children == l + [c] + r;
    MarkAppend(l + [c], r, o, Own(s));
    MarkAppend(l, [c], o, MarkIn(r, o, Own(s)));
    MarkSingle(c, o, MarkIn(r, o, Own(s)));
    if p[1..] == [] {
      assert At(s, p) == c;
      MarkAppend(l, r, o, Own(s));
      if c.Covers(o) {
        MarkUncovered(l, o, MarkAt(c, o));
        MarkUncovered(l, o, MarkIn(r, o, Own(s)));
        MarkUncovered(r, o, Own(s));
      }
    } else {
      WithinSegment(c, p[1..]);
      RemoveContexts(c, p[1..], o);
      var m := RemoveAt(c, p[1..]);
      MarkAppend(l + [m], r, o, Own(s));
      MarkAppend(l, [m], o, MarkIn(r, o, Own(s)));
      MarkSingle(m, o, MarkIn(r, o, Own(s)));
      if c.Covers(o) {
        MarkUncovered(l, o, MarkAt(c, o));
        MarkUncovered(l, o, MarkAt(m, o));
      }
    }
  }

  lemma {:induction false} RemoveDirt(s: Segment, p: Path)
    requires p != [] && IsPath(s, p)
    ensures Solid(s.children) ==> Solid(RemoveAt(s, p).children)
    ensures forall q :: NonStart(RemoveAt(s, p).children, q) ==> NonStart(s.children, q)
    ensures forall x, y :: Dirty(RemoveAt(s, p).children, x, y) ==> Dirty(s.children, x, y)
    decreases p
  {
    var i, c := p[0], s.children[p[0]];
    var l, r := s.children[..i], s.children[i + 1..];
    var m := if p[1..] == [] then [] else [RemoveAt(c, p[1..])];
    if p[1..] != [] {
      RemoveDirt(c, p[1..]);
      SolidSingle(m[0]);
    }
    assert s.children == l + [c] + r && RemoveAt(s, p).children == l + m + r;
    SolidAppend(l + [c], r);
    SolidAppend(l, [c]);
    SolidSingle(c);
    SolidAppend(l + m, r);
    SolidAppend(l, m);
    forall q | NonStart(l + m + r, q) ensures NonStart(s.children, q) {
      NonStartAppend(l + [c], r, q);
      NonStartAppend(l, [c], q);
      NonStartSingle(c, q);
      NonStartAppend(l + m, r, q);
      NonStartAppend(l, m, q);
      if p[1..] != [] { NonStartSingle(m[0], q); }
    }
    forall x, y | Dirty(l + m + r, x, y) ensures Dirty(s.children, x, y) {
      DirtyAppend(l + [c], r, x, y);
      DirtyAppend(l, [c], x, y);
      DirtySingle(c, x, y);
      DirtyAppend(l + m, r, x, y);
      DirtyAppend(l, m, x, y);
      if p[1..] != [] { DirtySingle(m[0], x, y); }
    }
  }

  // ----- counting -----

  /** The length of the list of invalid segments. */
  function InvalidCount(cs: seq<Segment>): nat {
    if cs == [] then 0
    else (if cs[0].IsInvalid() then 1 else 0) + InvalidCount(cs[0].children) + InvalidCount(cs[1..])
  }

  lemma CountAppend(a: seq<Segment>, b: seq<Segment>)
    ensures InvalidCount(a + b) == InvalidCount(a) + InvalidCount(b)
    decreases a
  {
    if a == [] {
      assert a + b == b;
    } else {
      assert (a + b)[1..] == a[1..] + b;
      CountAppend(a[1..], b);
    }
  }

  lemma CountSingle(s: Segment)
    ensures InvalidCount([s]) == (if s.IsInvalid() then 1 else 0) + InvalidCount(s.children)
  {
    assert [s][1..] == [];
  }

  lemma {:induction false} CountShift(cs: seq<Segment>, d: int)
    ensures InvalidCount(ShiftAll(cs, d)) == InvalidCount(cs)
    decreases cs
  {
    if cs != [] {
      assert ShiftAll(cs, d)[1..] == ShiftAll(cs[1..], d);
      CountShift(cs[0].children, d);
      CountShift(cs[1..], d);
    }
  }

  lemma {:induction false} CountZero(cs: seq<Segment>, x: int, y: int)
    requires InvalidCount(cs) == 0
    ensures !Dirty(cs, x, y)
    decreases cs
  {
    if cs != [] {
      CountZero(cs[0].children, x, y);
      CountZero(cs[1..], x, y);
    }
  }

  lemma {:induction false} CleanCount(cs: seq<Segment>, lo: int, hi: int, p: Option<Context>)
    requires ValidForest(cs, lo, hi, p) && !Dirty(cs, lo, hi + 1)
    ensures InvalidCount(cs) == 0
    decreases cs
  {
    if cs != [] {
      ForestBounds(cs, lo, hi, p);
      var c := cs[0];
      if Dirty(c.children, c.startAt, c.endAt + 1) { DirtyWiden(c.children, c.startAt, c.endAt + 1, lo, hi + 1); }
      if Dirty(cs[1..], c.endAt, hi + 1) { DirtyWiden(cs[1..], c.endAt, hi + 1, lo, hi + 1); }
      CleanCount(c.children, c.startAt, c.endAt, c.context);
      CleanCount(cs[1..], c.endAt, hi, p);
    }
  }

  /** An insertion at a place that is not invalid adds one invalid segment. */
  lemma {:induction false} InsertCount(s: Segment, path: Path, k: nat, offset: int, length: nat)
    requires IsPath(s, path) && k <= |At(s, path).children| && !s.IsInvalid() && !At(s, path).IsInvalid()
    requires Valid(s)
    ensures InvalidCount(InsertAlong(s, path, k, offset, length)) == InvalidCount(s.children) + 1
    decreases path
  {
    if path == [] {
      HereCount(s, k, offset, length);
    } else {
      var i, c := path[0], s.children[path[0]];
      var l, r := s.children[..i], s.children[i + 1..];
      ChildBounds(s, i);
      InsertCount(c, path[1..], k, offset, length);
      var m := InsertAlong(c, path[1..], k, offset, length);
      assert s.children == l + [c] + r;
      CountAppend(l + [c], r);
      CountAppend(l, [c]);
      CountSingle(c);
      CountShift(r, length);
      CountAppend(l + m, ShiftAll(r, length));
      CountAppend(l, m);
      CountSingle(InsertAlong(s, path, k, offset, length)[0]);
    }
  }

  lemma LeafCount(s: Segment)
    requires s.children == []
    ensures InvalidCount([s]) == if s.IsInvalid() then 1 else 0
  {
    CountSingle(s);
  }

  lemma SimpleCount(s: Segment)
    requires Valid(s)
    ensures !s.IsContainer() ==> s.children == []
    ensures InvalidCount([]) == 0
  {
  }

  lemma HereCount(s: Segment, k: nat, offset: int, length: nat)
    requires Valid(s) && k <= |s.children| && !s.IsInvalid()
    ensures InvalidCount(InsertHere(s, k, offset, length)) == InvalidCount(s.children) + 1
  {
    hide InvalidCount, Valid, ValidForest, ShiftAll;
    var i := InvalidSegment(offset, offset + length);
    LeafCount(i);
    SimpleCount(s);
    if s.IsSimple() {
      if s.startAt < offset < s.endAt {
        var x, y := s.(endAt := offset), Segment(s.context, offset + length, s.endAt + length, false, []);
        assert InsertHere(s, k, offset, length) == [x] + [i] + [y];
        CountAppend([x] + [i], [y]);
        CountAppend([x], [i]);
        LeafCount(x);
        LeafCount(y);
      } else {
        LeafCount(InsertHere(s, k, offset, length)[0]);
      }
    } else {
      var l, r := s.children[..k], s.children[k..];
      assert s.children == l + r;
      CountAppend(l, r);
      CountShift(r, length);
      CountAppend(l + [i], ShiftAll(r, length));
      CountAppend(l, [i]);
      CountSingle(InsertHere(s, k, offset, length)[0]);
    }
  }

  lemma {:induction false} RemoveCount(s: Segment, p: Path)
    requires Valid(s) && p != [] && IsPath(s, p) && At(s, p).IsInvalid()
    ensures InvalidCount(RemoveAt(s, p).children) + 1 == InvalidCount(s.children)
    decreases p
  {
    var i, c := p[0], s.children[p[0]];
    var l, r := s.children[..i], s.children[i + 1..];
    ChildBounds(s, i);
    assert s.children == l + [c] + r;
    CountAppend(l + [c], r);
    CountAppend(l, [c]);
    CountSingle(c);
    if p[1..] == [] {
      assert At(s, p) == c;
      CountAppend(l, r);
    } else {
      var m := RemoveAt(c, p[1..]);
      RemoveCount(c, p[1..]);
      CountSingle(m);
      CountAppend(l + [m], r);
      CountAppend(l, [m]);
    }
  }
}
