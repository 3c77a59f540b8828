/** How the operations on the tree change who uses which context: the references that the
    pool counts stay those of the tree. */
module SegmentUses {
  import opened Wrappers
  import opened Contexts
  import opened SegmentTree
  import opened SegmentErase
  import opened SegmentInsert
  import opened SegmentDelete
  import opened SegmentMerge
  import opened SegmentRemove
  import opened SegmentContexts
  import opened Labelling
  import opened ContextPool

  /** How many segments hold a reference to `c`. */
  function Uses(cs: seq<Segment>, c: Context): nat {
    ContextsIn(cs)[c]
  }

  function Use(s: Segment, c: Context): nat {
    if s.context == Some(c) then 1 else 0
  }

  lemma UsesFirst(cs: seq<Segment>, c: Context)
    ensures Uses([], c) == 0
    ensures cs != [] ==> Uses(cs, c) == Use(cs[0], c) + Uses(cs[0].children, c) + Uses(cs[1..], c)
  {
  }

  lemma UsesAppend(a: seq<Segment>, b: seq<Segment>, c: Context)
    ensures Uses(a + b, c) == Uses(a, c) + Uses(b, c)
  {
    ContextsAppend(a, b);
  }

  lemma UsesSingle(s: Segment, c: Context)
    ensures Uses([s], c) == Use(s, c) + Uses(s.children, c)
  {
    hide Uses;
    UsesFirst([s], c);
    assert [s][1..] == [];
  }

  lemma UsesBetween(l: seq<Segment>, m: seq<Segment>, r: seq<Segment>, c: Context)
    ensures Uses(l + m + r, c) == Uses(l, c) + Uses(m, c) + Uses(r, c)
  {
    hide Uses;
    UsesAppend(l + m, r, c);
    UsesAppend(l, m, c);
  }

  // ----- moving segments -----

  lemma {:induction false} ShiftUses(cs: seq<Segment>, delta: int, c: Context)
    ensures Uses(ShiftAll(cs, delta), c) == Uses(cs, c)
    decreases cs
  {
    hide Uses;
    if cs != [] {
      var r := ShiftAll(cs, delta);
      assert r[1..] == ShiftAll(cs[1..], delta);
      UsesFirst(cs, c);
      UsesFirst(r, c);
      ShiftUses(cs[0].children, delta, c);
      ShiftUses(cs[1..], delta, c);
    }
  }

  lemma {:induction false} FixUses(cs: seq<Segment>, offset: int, length: int, c: Context)
    ensures Uses(FixAll(cs, offset, length), c) == Uses(cs, c)
    decreases cs
  {
    hide Uses;
    if cs != [] {
      var r := FixAll(cs, offset, length);
      assert r[1..] == FixAll(cs[1..], offset, length);
      UsesFirst(cs, c);
      UsesFirst(r, c);
      FixUses(cs[0].children, offset, length, c);
      FixUses(cs[1..], offset, length, c);
    }
  }

  // ----- erasing -----

  /** How many of the segments that lie in [a, b] hold a reference to `c`. */
  function Within(cs: seq<Segment>, a: int, b: int, c: Context): nat {
    if cs == [] then 0
    else (if a <= cs[0].startAt && cs[0].endAt <= b then Use(cs[0], c) else 0)
         + Within(cs[0].children, a, b, c) + Within(cs[1..], a, b, c)
  }

  /** How many of those that go on at both sides of [a, b] do. */
  function Around(cs: seq<Segment>, a: int, b: int, c: Context): nat {
    if cs == [] then 0
    else (if cs[0].startAt < a && b < cs[0].endAt then Use(cs[0], c) else 0)
         + Around(cs[0].children, a, b, c) + Around(cs[1..], a, b, c)
  }

  lemma {:induction false} AllWithin(cs: seq<Segment>, lo: int, hi: int, p: Option<Context>, a: int, b: int, c: Context)
    requires ValidForest(cs, lo, hi, p) && a <= lo && hi <= b
    ensures Within(cs, a, b, c) == Uses(cs, c) && Around(cs, a, b, c) == 0
    decreases cs
  {
    hide Uses;
    UsesFirst(cs, c);
    if cs != [] {
      ForestBounds(cs, lo, hi, p);
      AllWithin(cs[0].children, cs[0].startAt, cs[0].endAt, cs[0].context, a, b, c);
      AllWithin(cs[1..], cs[0].endAt, hi, p, a, b, c);
    }
  }

  lemma {:induction false} AllOutside(cs: seq<Segment>, lo: int, hi: int, p: Option<Context>, a: int, b: int, c: Context)
    requires ValidForest(cs, lo, hi, p) && (hi < a || b < lo) && a < b
    ensures Within(cs, a, b, c) == 0 && Around(cs, a, b, c) == 0
    decreases cs
  {
    if cs != [] {
      ForestBounds(cs, lo, hi, p);
      AllOutside(cs[0].children, cs[0].startAt, cs[0].endAt, cs[0].context, a, b, c);
      AllOutside(cs[1..], cs[0].endAt, hi, p, a, b, c);
    }
  }

  /** Erasing gives back the references of the segments that lie in the range and takes one
      more for each segment that is split. */
  lemma {:induction false} ErasedUses(cs: seq<Segment>, lo: int, hi: int, p: Option<Context>, a: int, b: int, c: Context)
    requires a < b && ValidForest(cs, lo, hi, p)
    ensures Uses(EraseForest(cs, a, b), c) + Within(cs, a, b, c) == Uses(cs, c) + Around(cs, a, b, c)
    decreases cs
  {
    hide Uses, EraseRange;
    UsesFirst(cs, c);
    if cs != [] {
      var s := cs[0];
      ErasedUses(cs[1..], s.endAt, hi, p, a, b, c);
      UsesAppend(EraseRange(s, a, b), EraseForest(cs[1..], a, b), c);
      ErasedUses(s.children, s.startAt, s.endAt, s.context, a, b, c);
      CutUses(s, a, b, c);
    }
  }

  lemma CutCount(s: Segment, a: int, b: int, c: Context)
    requires a < b && Valid(s) && s.startAt != s.endAt
    requires s.startAt <= b && s.endAt >= a && !(s.startAt >= a && s.endAt <= b)
    ensures Uses(EraseRange(s, a, b), c) ==
      Uses(EraseForest(s.children, a, b), c) + Use(s, c) + if s.startAt < a && b < s.endAt then Use(s, c) else 0
  {
    hide Uses, EraseForest, ValidForest;
    KidsOfErase(s, a, b);
    PartUses(s, EraseForest(s.children, a, b), a, b, c);
  }

  /** What is left of one segment, given what is left of its children. */
  lemma CutUses(s: Segment, a: int, b: int, c: Context)
    requires a < b && Valid(s)
    requires Uses(EraseForest(s.children, a, b), c) + Within(s.children, a, b, c) == Uses(s.children, c) + Around(s.children, a, b, c)
    ensures Uses(EraseRange(s, a, b), c) + (if a <= s.startAt && s.endAt <= b then Use(s, c) else 0) + Within(s.children, a, b, c)
            == Use(s, c) + Uses(s.children, c) + (if s.startAt < a && b < s.endAt then Use(s, c) else 0) + Around(s.children, a, b, c)
  {
    hide Uses, EraseForest, ValidForest;
    if a <= s.startAt && s.endAt <= b {
      AllWithin(s.children, s.startAt, s.endAt, s.context, a, b, c);
      UsesFirst([], c);
    } else if s.startAt == s.endAt || s.startAt > b || s.endAt < a {
      AllOutside(s.children, s.startAt, s.endAt, s.context, a, b, c);
      UsesSingle(s, c);
    } else {
      CutCount(s, a, b, c);
    }
  }

  lemma PartUses(s: Segment, kids: seq<Segment>, a: int, b: int, c: Context)
    ensures Uses(EraseMiddle(s, kids, a, b), c) == 2 * Use(s, c) + Uses(kids, c)
    ensures Uses([s.(startAt := b, isStart := false, children := kids)], c) == Use(s, c) + Uses(kids, c)
    ensures Uses([s.(endAt := a, children := kids)], c) == Use(s, c) + Uses(kids, c)
  {
    hide Uses;
    HalvesUses(s, kids, LeftCount(kids, a), a, b, c);
    UsesSingle(s.(startAt := b, isStart := false, children := kids), c);
    UsesSingle(s.(endAt := a, children := kids), c);
  }

  lemma HalvesUses(s: Segment, kids: seq<Segment>, k: nat, a: int, b: int, c: Context)
    requires k <= |kids|
    ensures Uses([s.(endAt := a, children := kids[..k]), Segment(s.context, b, s.endAt, false, kids[k..])], c) == 2 * Use(s, c) + Uses(kids, c)
  {
    hide Uses;
    var l, r := s.(endAt := a, children := kids[..k]), Segment(s.context, b, s.endAt, false, kids[k..]);
    assert [l, r] == [l] + [r] && kids == kids[..k] + kids[k..];
    UsesAppend([l], [r], c);
    UsesAppend(kids[..k], kids[k..], c);
    UsesSingle(l, c);
    UsesSingle(r, c);
  }

  // ----- inserting, merging, removing -----

  /** What an insertion at the segment `s` takes and gives back: a simple segment is split
      or becomes invalid. */
  function Extra(s: Segment, offset: int, c: Context): int {
    if !s.IsSimple() then 0 else if Lost(s, offset).None? then Use(s, c) else 0 - Use(s, c)
  }

  lemma {:induction false} InsertedUses(s: Segment, path: Path, k: nat, offset: int, length: nat, c: Context)
    requires Valid(s) && IsPath(s, path) && k <= |At(s, path).children|
    ensures Uses(InsertAlong(s, path, k, offset, length), c) == Uses([s], c) + Extra(At(s, path), offset, c)
    decreases path
  {
    hide Uses, Extra, ShiftAll;
    if path == [] {
      HereUses(s, k, offset, length, c);
    } else {
      var i, d := path[0], s.children[path[0]];
      var l, r := s.children[..i], s.children[i + 1..];
      ChildBounds(s, i);
      InsertedUses(d, path[1..], k, offset, length, c);
      var m := InsertAlong(d, path[1..], k, offset, length);
      assert s.children == l + [d] + r;
      UsesBetween(l, [d], r, c);
      UsesBetween(l, m, ShiftAll(r, length), c);
      ShiftUses(r, length, c);
      UsesSingle(s, c);
      UsesSingle(InsertAlong(s, path, k, offset, length)[0], c);
    }
  }

  lemma HereUses(s: Segment, k: nat, offset: int, length: nat, c: Context)
    requires Valid(s) && k <= |s.children|
    ensures Uses(InsertHere(s, k, offset, length), c) == Uses([s], c) + Extra(s, offset, c)
  {
    hide Uses, ShiftAll;
    var i := InvalidSegment(offset, offset + length);
    UsesSingle(s, c);
    UsesFirst([], c);
    if s.IsInvalid() {
      UsesSingle(s.(endAt := s.endAt + length), c);
    } else if s.IsSimple() {
      var x, y := s.(endAt := offset), Segment(s.context, offset + length, s.endAt + length, false, []);
      UsesBetween([x], [i], [y], c);
      UsesSingle(x, c);
      UsesSingle(i, c);
      UsesSingle(y, c);
      UsesSingle(s.(context := None, isStart := false, endAt := s.endAt + length), c);
      assert [x, i, y] == [x] + [i] + [y];
    } else {
      var l, r := s.children[..k], s.children[k..];
      assert s.children == l + r;
      UsesAppend(l, r, c);
      UsesBetween(l, [i], ShiftAll(r, length), c);
      UsesSingle(i, c);
      ShiftUses(r, length, c);
      UsesSingle(s.(endAt := s.endAt + length, children := l + [i] + ShiftAll(r, length)), c);
    }
  }

  /** The references of the segments that merging takes away, from the top. */
  function Seam(r: Segment, d: nat): multiset<Context>
    decreases d
  {
    (if r.context.Some? then multiset{r.context.value} else multiset{})
    + if d > 0 && r.children != [] then Seam(r.children[0], d - 1) else multiset{}
  }

  lemma SeamFirst(r: Segment, d: nat, c: Context)
    ensures Seam(r, d)[c] == Use(r, c) + if d > 0 && r.children != [] then Seam(r.children[0], d - 1)[c] else 0
  {
  }

  /** Merging gives back one reference on every level. */
  lemma {:induction false} JoinedUses(l: Segment, r: Segment, d: nat, c: Context)
    requires Joinable(l, r, d)
    ensures Uses([Join(l, r, d)], c) + Seam(r, d)[c] == Uses([l], c) + Uses([r], c)
    decreases d
  {
    hide Uses, Seam;
    SeamFirst(r, d, c);
    UsesSingle(l, c);
    UsesSingle(r, c);
    UsesSingle(Join(l, r, d), c);
    if d == 0 {
      UsesAppend(l.children, r.children, c);
    } else {
      var x, y := l.children[|l.children| - 1], r.children[0];
      JoinedUses(x, y, d - 1, c);
      EndsJoined(l.children, r.children, Join(x, y, d - 1), Seam(y, d - 1)[c], c);
    }
  }

  lemma EndsJoined(cs: seq<Segment>, ds: seq<Segment>, m: Segment, n: nat, c: Context)
    requires cs != [] && ds != []
    requires Uses([m], c) + n == Uses([cs[|cs| - 1]], c) + Uses([ds[0]], c)
    ensures Uses(cs[..|cs| - 1] + [m] + ds[1..], c) + n == Uses(cs, c) + Uses(ds, c)
  {
    hide Uses;
    var x, y := cs[|cs| - 1], ds[0];
    assert cs == cs[..|cs| - 1] + [x] && ds == [y] + ds[1..];
    UsesBetween(cs[..|cs| - 1], [m], ds[1..], c);
    UsesAppend(cs[..|cs| - 1], [x], c);
    UsesAppend([y], ds[1..], c);
  }

  /** Removing a segment gives back the references of it and of everything in it. */
  lemma {:induction false} RemovedUses(s: Segment, p: Path, c: Context)
    requires p != [] && IsPath(s, p)
    ensures Uses(RemoveAt(s, p).children, c) + Uses([At(s, p)], c) == Uses(s.children, c)
    decreases p
  {
    hide Uses;
    var i, d := p[0], s.children[p[0]];
    var l, r := s.children[..i], s.children[i + 1..];
    assert s.children == l + [d] + r;
    UsesBetween(l, [d], r, c);
    if p[1..] == [] {
      assert At(s, p) == d;
      UsesAppend(l, r, c);
    } else {
      RemovedUses(d, p[1..], c);
      UsesBetween(l, [RemoveAt(d, p[1..])], r, c);
      UsesSingle(d, c);
      UsesSingle(RemoveAt(d, p[1..]), c);
    }
  }

  // ----- the pool -----

  /** What `context_unref` asks for holds wherever what is left is rooted. */
  lemma MayRelease(uses: multiset<Context>, c: Context, left: multiset<Context>)
    requires c in uses && left == uses - multiset{c} && Rooted(left) && c != Root
    ensures uses[c] > 1 || forall d :: d in uses && d.Child? ==> d.parent != c
  {
    if uses[c] <= 1 {
      forall d | d in uses && d.Child? ensures d.parent != c {
        assert c !in left && (d != c ==> d in left);
      }
    }
  }

  lemma RootedWith(x: seq<Segment>, lo: int, hi: int, outer: Context, rest: multiset<Context>)
    requires ValidForest(x, lo, hi, Some(outer)) && Rooted(rest) && (outer == Root || outer in rest)
    ensures Rooted(ContextsIn(x) + rest)
  {
    BelowParent(x, lo, hi, outer);
    hide ContextsIn, ValidForest;
    var all := ContextsIn(x) + rest;
    forall d | d in all ensures d.Child? && (d.parent == Root || d.parent in all) {
      assert d in ContextsIn(x) || d in rest;
    }
  }

  lemma Swap(x: multiset<Context>, y: multiset<Context>, z: multiset<Context>)
    ensures x + (y + z) == y + (x + z) && (x + y) + z == x + (y + z) && x + y == y + x
  {
  }

  /** The contexts after one sibling is erased: the references of the others wait. */
  lemma ErasedFirst(cs: seq<Segment>, lo: int, hi: int, outer: Context, a: int, b: int, rest: multiset<Context>)
    requires a < b && cs != [] && ValidForest(cs, lo, hi, Some(outer)) && Rooted(rest) && (outer == Root || outer in rest)
    ensures ContextsIn(EraseForest(cs, a, b)) == ContextsIn(EraseRange(cs[0], a, b)) + ContextsIn(EraseForest(cs[1..], a, b))
    ensures ContextsIn(cs) == ContextsIn([cs[0]]) + ContextsIn(cs[1..])
    ensures Rooted(ContextsIn(cs[1..]) + rest) && Rooted(ContextsIn(EraseRange(cs[0], a, b)) + rest)
    ensures ValidForest([cs[0]], cs[0].startAt, cs[0].endAt, Some(outer)) && ValidForest(cs[1..], cs[0].endAt, hi, Some(outer))
  {
    var s := cs[0];
    assert cs == [s] + cs[1..];
    EraseRangeShape(s, a, b, Some(outer));
    SingleShape(s, s.startAt, s.endAt, Some(outer));
    assert ValidForest(cs[1..], s.endAt, hi, Some(outer));
    hide ContextsIn, ValidForest, Rooted;
    ContextsAppend([s], cs[1..]);
    ContextsAppend(EraseRange(s, a, b), EraseForest(cs[1..], a, b));
    RootedWith(cs[1..], s.endAt, hi, outer, rest);
    RootedWith(EraseRange(s, a, b), s.startAt, s.endAt, outer, rest);
  }

  /** `segment_erase_range_` of siblings: after it the pool counts the references of what
      is left. */
  method EraseAll(pool: Pool, cs: seq<Segment>, ghost lo: int, ghost hi: int, outer: Context, a: int, b: int, ghost rest: multiset<Context>)
    requires pool.Valid() && a < b && ValidForest(cs, lo, hi, Some(outer)) && Rooted(rest) && (outer == Root || outer in rest)
    requires pool.uses == ContextsIn(cs) + rest
    modifies pool`table, pool`uses
    ensures pool.Valid() && pool.uses == ContextsIn(EraseForest(cs, a, b)) + rest
    decreases cs, 1
  {
    hide Pool.Valid, ContextsIn, Rooted, ValidForest, EraseForest, EraseRange;
    if cs == [] {
      NothingErased(a, b);
      return;
    }
    var s := cs[0];
    ghost var others := ContextsIn(cs[1..]);
    ErasedFirst(cs, lo, hi, outer, a, b, rest);
    Swap(ContextsIn([s]), others, rest);
    EraseOne(pool, s, outer, a, b, others + rest);
    ghost var left := ContextsIn(EraseRange(s, a, b));
    Swap(left, others, rest);
    EraseAll(pool, cs[1..], s.endAt, hi, outer, a, b, left + rest);
    Swap(ContextsIn(EraseForest(cs[1..], a, b)), left, rest);
  }

  method EraseOne(pool: Pool, s: Segment, outer: Context, a: int, b: int, ghost rest: multiset<Context>)
    requires pool.Valid() && a < b && ValidForest([s], s.startAt, s.endAt, Some(outer)) && Rooted(rest) && (outer == Root || outer in rest)
    requires pool.uses == ContextsIn([s]) + rest
    modifies pool`table, pool`uses
    ensures pool.Valid() && pool.uses == ContextsIn(EraseRange(s, a, b)) + rest
    decreases s, 0
  {
    hide Pool.Valid, ContextsIn, Rooted, ValidForest, EraseForest, EraseRange;
    if s.startAt >= a && s.endAt <= b {
      ValidSingle(s, Some(outer));
      DestroyAll(pool, [s], s.startAt, s.endAt, outer, rest);
      GoneContexts(s, a, b, rest);
    } else if s.startAt == s.endAt || s.startAt > b || s.endAt < a {
      Untouched(s, a, b);
    } else {
      FirstContexts([s], s.startAt, s.endAt, outer, rest);
      CutContexts(s, a, b, outer, rest);
      match s.context
      case None =>
      case Some(c) =>
        EraseAll(pool, s.children, s.startAt, s.endAt, c, a, b, multiset{c} + (ContextsIn([s][1..]) + rest));
        if s.startAt < a && b < s.endAt {
          pool.Reference(c);
        }
    }
  }

  lemma GoneContexts(s: Segment, a: int, b: int, rest: multiset<Context>)
    requires s.startAt >= a && s.endAt <= b && Valid(s)
    ensures ContextsIn(EraseRange(s, a, b)) + rest == rest
  {
    assert EraseRange(s, a, b) == [];
  }

  lemma Untouched(s: Segment, a: int, b: int)
    requires !(s.startAt >= a && s.endAt <= b) && (s.startAt == s.endAt || s.startAt > b || s.endAt < a)
    ensures EraseRange(s, a, b) == [s]
  {
  }

  lemma ValidSingle(s: Segment, p: Option<Context>)
    requires ValidForest([s], s.startAt, s.endAt, p)
    ensures Valid(s)
  {
  }

  lemma SameContexts(cs: seq<Segment>, m: multiset<Context>)
    requires forall c :: Uses(cs, c) == m[c]
    ensures ContextsIn(cs) == m
  {
  }

  /** The contexts of a segment that is cut or split. */
  lemma CutContexts(s: Segment, a: int, b: int, outer: Context, rest: multiset<Context>)
    requires a < b && ValidForest([s], s.startAt, s.endAt, Some(outer)) && s.startAt != s.endAt
    requires s.startAt <= b && s.endAt >= a && !(s.startAt >= a && s.endAt <= b)
    ensures s.context.None? ==> ContextsIn(EraseRange(s, a, b)) == ContextsIn([s])
    ensures s.context.Some? ==>
      var u := ContextsIn(EraseForest(s.children, a, b)) + (multiset{s.context.value} + (ContextsIn([s][1..]) + rest));
      ContextsIn(EraseRange(s, a, b)) + rest == if s.startAt < a && b < s.endAt then u + multiset{s.context.value} else u
  {
    ValidSingle(s, Some(outer));
    var kids := EraseForest(s.children, a, b);
    if s.context.None? {
      assert s.children == [] && kids == [];
      forall c ensures Uses(EraseRange(s, a, b), c) == ContextsIn([s])[c] {
        CutCount(s, a, b, c);
        UsesSingle(s, c);
        assert Use(s, c) == 0;
      }
      SameContexts(EraseRange(s, a, b), ContextsIn([s]));
    } else {
      CutSome(s, a, b, s.context.value);
      assert [s][1..] == [];
      Gathered(ContextsIn(kids), s.context.value, rest);
    }
  }

  lemma Gathered(kids: multiset<Context>, c: Context, rest: multiset<Context>)
    ensures kids + (multiset{c} + (multiset{} + rest)) == kids + multiset{c} + rest
    ensures kids + (multiset{c} + (multiset{} + rest)) + multiset{c} == kids + multiset{c} + multiset{c} + rest
  {
  }

  lemma CutSome(s: Segment, a: int, b: int, d: Context)
    requires a < b && Valid(s) && s.context == Some(d) && s.startAt != s.endAt
    requires s.startAt <= b && s.endAt >= a && !(s.startAt >= a && s.endAt <= b)
    ensures ContextsIn(EraseRange(s, a, b)) ==
      var one := ContextsIn(EraseForest(s.children, a, b)) + multiset{d};
      if s.startAt < a && b < s.endAt then one + multiset{d} else one
  {
    hide EraseForest, EraseRange, ContextsIn, ValidForest;
    var one := ContextsIn(EraseForest(s.children, a, b)) + multiset{d};
    var m := if s.startAt < a && b < s.endAt then one + multiset{d} else one;
    forall c ensures Uses(EraseRange(s, a, b), c) == m[c] {
      CutCount(s, a, b, c);
    }
    SameContexts(EraseRange(s, a, b), m);
  }

  lemma NothingErased(a: int, b: int)
    ensures EraseForest([], a, b) == []
  {
  }

  /** `erase_segments` */
  method EraseSegments(pool: Pool, root: Segment, a: int, b: int)
    requires pool.Valid() && ValidRoot(root) && a < b && pool.uses == ContextsIn(root.children)
    modifies pool`table, pool`uses
    ensures pool.Valid() && pool.uses == ContextsIn(Erased(root, a, b).children)
  {
    hide Pool.Valid, ContextsIn, EraseForest;
    EraseAll(pool, root.children, 0, root.endAt, Root, a, b, multiset{});
  }

  lemma {:induction false} InMerged(l: Segment, r: Segment, d: nat, c: Context)
    requires Joinable(l, r, d) && c in Seam(r, d)
    ensures Uses([Join(l, r, d)], c) > 0
    decreases d
  {
    hide Uses, Seam;
    SeamFirst(r, d, c);
    UsesSingle(Join(l, r, d), c);
    if Use(r, c) == 0 {
      var n := |l.children| - 1;
      InMerged(l.children[n], r.children[0], d - 1, c);
      UsesBetween(l.children[..n], [Join(l.children[n], r.children[0], d - 1)], r.children[1..], c);
    }
  }

  lemma {:induction false} NoToplevel(l: Segment, r: Segment, d: nat, p: Context)
    requires Joinable(l, r, d) && Valid(r) && Fits(r.context, Some(p))
    ensures Root !in Seam(r, d)
    decreases d
  {
    if d > 0 {
      ChildBounds(r, 0);
      NoToplevel(l.children[|l.children| - 1], r.children[0], d - 1, r.context.value);
    }
  }

  lemma SeamStep(r: Segment, d: nat, left: multiset<Context>)
    requires r.context.Some? && Root !in Seam(r, d) && forall c :: c in Seam(r, d) ==> c in left
    ensures r.context.value in Seam(r, d) + left && (Seam(r, d) + left)[r.context.value] > 1
    ensures var rest := Seam(r, d) + left - multiset{r.context.value};
      if d > 0 && r.children != [] then
        rest == Seam(r.children[0], d - 1) + left
        && Root !in Seam(r.children[0], d - 1) && forall c :: c in Seam(r.children[0], d - 1) ==> c in left
      else rest == left
  {
    var c := r.context.value;
    var below := if d > 0 && r.children != [] then Seam(r.children[0], d - 1) else multiset{};
    assert Seam(r, d) == multiset{c} + below;
    hide Seam;
    assert c in Seam(r, d) && left[c] > 0;
    OneOff(c, below, left);
    forall x | x in below ensures x in left && x != Root { assert x in Seam(r, d); }
  }

  lemma OneOff(c: Context, below: multiset<Context>, left: multiset<Context>)
    ensures multiset{c} + below + left - multiset{c} == below + left
    ensures (multiset{c} + below + left)[c] == 1 + below[c] + left[c]
  {
  }

  /** The second segments go, the parents before their children: each context stays in use
      by the merged segment. */
  method ReleaseSeam(pool: Pool, l: Segment, r: Segment, d: nat, ghost left: multiset<Context>)
    requires pool.Valid() && Joinable(l, r, d) && Rooted(left) && pool.uses == Seam(r, d) + left
    requires Root !in Seam(r, d) && forall c :: c in Seam(r, d) ==> c in left
    modifies pool`table, pool`uses
    ensures pool.Valid() && pool.uses == left
    decreases d
  {
    hide Pool.Valid, Seam, Rooted;
    SeamStep(r, d, left);
    pool.Release(r.context.value);
    if d > 0 {
      ReleaseSeam(pool, l.children[|l.children| - 1], r.children[0], d - 1, left);
    }
  }

  lemma MergedUses(t: Segment, i: nat, d: nat)
    requires ValidRoot(t) && i + 1 < |t.children| && Joinable(t.children[i], t.children[i + 1], d)
    ensures var r := t.children[i + 1]; var left := ContextsIn(Merged(t, i, d).children);
      && ContextsIn(t.children) == Seam(r, d) + left && Rooted(left)
      && Root !in Seam(r, d) && forall c :: c in Seam(r, d) ==> c in left
  {
    hide Seam, ContextsIn, Rooted, ValidRoot, Uses;
    MergedRooted(t, i, d);
    forall c ensures Uses(t.children, c) == Seam(t.children[i + 1], d)[c] + Uses(Merged(t, i, d).children, c) {
      MergedCount(t, i, d, c);
    }
    MoreContexts(t.children, Seam(t.children[i + 1], d), Merged(t, i, d).children);
    forall c | c in Seam(t.children[i + 1], d) ensures c in ContextsIn(Merged(t, i, d).children) {
      MergedCount(t, i, d, c);
      UsedContext(Merged(t, i, d).children, c);
    }
  }

  lemma MergedRooted(t: Segment, i: nat, d: nat)
    requires ValidRoot(t) && i + 1 < |t.children| && Joinable(t.children[i], t.children[i + 1], d)
    ensures Rooted(ContextsIn(Merged(t, i, d).children)) && Root !in Seam(t.children[i + 1], d)
  {
    hide Seam, ContextsIn, Rooted;
    MergedShape(t, i, d);
    TreeIsRooted(Merged(t, i, d));
    ChildBounds(t, i + 1);
    NoToplevel(t.children[i], t.children[i + 1], d, Root);
  }

  lemma UsedContext(cs: seq<Segment>, c: Context)
    ensures Uses(cs, c) > 0 <==> c in ContextsIn(cs)
  {
  }

  lemma MoreContexts(cs: seq<Segment>, more: multiset<Context>, ds: seq<Segment>)
    requires forall c :: Uses(cs, c) == more[c] + Uses(ds, c)
    ensures ContextsIn(cs) == more + ContextsIn(ds)
  {
    SameContexts(cs, more + ContextsIn(ds));
  }

  lemma MergedCount(t: Segment, i: nat, d: nat, c: Context)
    requires i + 1 < |t.children| && Joinable(t.children[i], t.children[i + 1], d)
    ensures Uses(t.children, c) == Seam(t.children[i + 1], d)[c] + Uses(Merged(t, i, d).children, c)
    ensures c in Seam(t.children[i + 1], d) ==> Uses(Merged(t, i, d).children, c) > 0
  {
    hide Uses, Seam;
    var l, r := t.children[i], t.children[i + 1];
    assert t.children == t.children[..i] + ([l] + [r]) + t.children[i + 2..];
    JoinedUses(l, r, d, c);
    UsesAppend([l], [r], c);
    UsesBetween(t.children[..i], [l] + [r], t.children[i + 2..], c);
    UsesBetween(t.children[..i], [Join(l, r, d)], t.children[i + 2..], c);
    if c in Seam(r, d) { InMerged(l, r, d, c); }
  }

  /** `segment_merge` */
  method MergeSegments(pool: Pool, t: Segment, i: nat, d: nat)
    requires pool.Valid() && ValidRoot(t) && pool.uses == ContextsIn(t.children)
    requires i + 1 < |t.children| && Joinable(t.children[i], t.children[i + 1], d)
    modifies pool`table, pool`uses
    ensures pool.Valid() && pool.uses == ContextsIn(Merged(t, i, d).children)
  {
    hide Pool.Valid, ContextsIn, Seam, Rooted, ValidRoot;
    MergedUses(t, i, d);
    ReleaseSeam(pool, t.children[i], t.children[i + 1], d, ContextsIn(Merged(t, i, d).children));
  }

  lemma PlaceUses(root: Segment, path: Path, k: nat, offset: int, length: nat, c: Context)
    requires ValidRoot(root) && IsPath(root, path) && k <= |At(root, path).children|
    ensures var r := InsertAlong(root, path, k, offset, length)[0];
      Uses(r.children, c) == Uses(root.children, c) + Extra(At(root, path), offset, c)
    ensures At(root, path).IsSimple() && At(root, path).context == Some(c) ==> Uses(root.children, c) > 0
  {
    hide Uses, Extra;
    InsertedUses(root, path, k, offset, length, c);
    UsesSingle(root, c);
    UsesSingle(InsertAlong(root, path, k, offset, length)[0], c);
    if path != [] {
      RemovedUses(root, path, c);
      UsesSingle(At(root, path), c);
    }
  }

  /** `insert_range`: a simple segment that is split uses its context once more, one that
      becomes invalid gives it back. */
  method InsertRange(pool: Pool, root: Segment, path: Path, k: nat, offset: int, length: nat)
    requires pool.Valid() && ValidRoot(root) && pool.uses == ContextsIn(root.children)
    requires IsPlace(root, path, k, offset) && IsPath(root, path) && k <= |At(root, path).children|
    modifies pool`table, pool`uses
    ensures pool.Valid() && pool.uses == ContextsIn(InsertAlong(root, path, k, offset, length)[0].children)
  {
    hide Pool.Valid;
    var place := At(root, path);
    ghost var after := ContextsIn(InsertAlong(root, path, k, offset, length)[0].children);
    InsertedContexts(root, path, k, offset, length);
    if place.IsSimple() {
      var c := place.context.value;
      if place.startAt < offset < place.endAt {
        pool.Reference(c);
      } else {
        MayRelease(pool.uses, c, after);
        pool.Release(c);
      }
    }
  }

  lemma InsertedContexts(root: Segment, path: Path, k: nat, offset: int, length: nat)
    requires ValidRoot(root) && IsPlace(root, path, k, offset) && IsPath(root, path) && k <= |At(root, path).children|
    ensures var place := At(root, path);
      var before, after := ContextsIn(root.children), ContextsIn(InsertAlong(root, path, k, offset, length)[0].children);
      if !place.IsSimple() then after == before
      else if Lost(place, offset).None? then place.context.value in before && after == before + multiset{place.context.value}
      else place.context.value in before && place.context.value != Root && after == before - multiset{place.context.value} && Rooted(after)
  {
    hide ContextsIn, Uses, Extra, Rooted, ValidRoot, IsPlace;
    var place, r := At(root, path), InsertAlong(root, path, k, offset, length)[0];
    forall c ensures Uses(r.children, c) == Uses(root.children, c) + Extra(place, offset, c) {
      PlaceUses(root, path, k, offset, length, c);
    }
    if place.IsSimple() {
      var c := place.context.value;
      PlaceUses(root, path, k, offset, length, c);
      UsedContext(root.children, c);
      PlaceRooted(root, path, k, offset, length);
      if Lost(place, offset).None? {
        forall x ensures Uses(r.children, x) == multiset{c}[x] + Uses(root.children, x) { OneUse(place, offset, x); }
        MoreContexts(r.children, multiset{c}, root.children);
      } else {
        forall x ensures Uses(root.children, x) == multiset{c}[x] + Uses(r.children, x) { OneUse(place, offset, x); }
        MoreContexts(root.children, multiset{c}, r.children);
      }
    } else {
      forall x ensures Uses(r.children, x) == multiset{}[x] + Uses(root.children, x) { OneUse(place, offset, x); }
      MoreContexts(r.children, multiset{}, root.children);
    }
  }

  lemma OneUse(s: Segment, offset: int, c: Context)
    ensures !s.IsSimple() ==> Extra(s, offset, c) == 0
    ensures s.IsSimple() && Lost(s, offset).None? ==> Extra(s, offset, c) == multiset{s.context.value}[c]
    ensures s.IsSimple() && Lost(s, offset).Some? ==> Extra(s, offset, c) + multiset{s.context.value}[c] == 0
  {
  }

  lemma PlaceRooted(root: Segment, path: Path, k: nat, offset: int, length: nat)
    requires ValidRoot(root) && IsPlace(root, path, k, offset) && IsPath(root, path) && k <= |At(root, path).children|
    requires At(root, path).IsSimple()
    ensures Rooted(ContextsIn(InsertAlong(root, path, k, offset, length)[0].children)) && At(root, path).context.value != Root
  {
    hide ContextsIn, Rooted;
    RootShape(root, path, k, offset, length);
    assert Root.IsContainer();
    TreeIsRooted(InsertAlong(root, path, k, offset, length)[0]);
  }
}
