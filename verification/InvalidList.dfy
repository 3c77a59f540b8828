/** The invalid segments of a tree in its order, and the search among them.  That the list
    of the engine (`priv->invalid`) holds exactly these is `NodeWhole.ListIsPaths`. */
module InvalidList {
  import opened Wrappers
  import opened SegmentTree
  import opened SegmentInsert

  /** The paths to the invalid segments, in tree order. */
  function InvalidPaths(s: Segment): seq<Path>
    decreases s, 1
  {
    if s.IsInvalid() then [[]] else KidPaths(s.children, 0)
  }

  /** The same for the children from the `i`-th on. */
  function KidPaths(cs: seq<Segment>, i: nat): seq<Path>
    requires i <= |cs|
    decreases cs, 0, |cs| - i
  {
    if i == |cs| then [] else Under(i, InvalidPaths(cs[i])) + KidPaths(cs, i + 1)
  }

  function Under(i: nat, ps: seq<Path>): (r: seq<Path>)
    ensures |r| == |ps| && forall j :: 0 <= j < |ps| ==> r[j] == [i] + ps[j]
  {
    seq(|ps|, j requires 0 <= j < |ps| => [i] + ps[j])
  }

  /** The list holds invalid segments only. */
  lemma {:induction false} ListedAreInvalid(s: Segment, p: Path)
    requires p in InvalidPaths(s)
    ensures IsPath(s, p) && At(s, p).IsInvalid()
    decreases s, 1
  {
    if !s.IsInvalid() { KidsAreInvalid(s.children, 0, p); }
  }

  lemma {:induction false} KidsAreInvalid(cs: seq<Segment>, i: nat, p: Path)
    requires i <= |cs| && p in KidPaths(cs, i)
    ensures p != [] && i <= p[0] < |cs| && IsPath(cs[p[0]], p[1..]) && At(cs[p[0]], p[1..]).IsInvalid()
    decreases cs, 0, |cs| - i
  {
    if p in Under(i, InvalidPaths(cs[i])) {
      var j :| 0 <= j < |InvalidPaths(cs[i])| && p == Under(i, InvalidPaths(cs[i]))[j];
      assert p[1..] == InvalidPaths(cs[i])[j];
      ListedAreInvalid(cs[i], p[1..]);
    } else {
      KidsAreInvalid(cs, i + 1, p);
    }
  }

  /** The list holds every invalid segment. */
  lemma {:induction false} InvalidAreListed(s: Segment, p: Path)
    requires Valid(s) && IsPath(s, p) && At(s, p).IsInvalid()
    ensures p in InvalidPaths(s)
    decreases p
  {
    if p != [] {
      ChildBounds(s, p[0]);
      InvalidAreListed(s.children[p[0]], p[1..]);
      KidsAreListed(s.children, 0, p);
    }
  }

  lemma {:induction false} KidsAreListed(cs: seq<Segment>, i: nat, p: Path)
    requires p != [] && i <= p[0] < |cs| && p[1..] in InvalidPaths(cs[p[0]])
    ensures p in KidPaths(cs, i)
    decreases p[0] - i
  {
    if i == p[0] {
      var j :| 0 <= j < |InvalidPaths(cs[i])| && p[1..] == InvalidPaths(cs[i])[j];
      assert Under(i, InvalidPaths(cs[i]))[j] == p;
    } else {
      KidsAreListed(cs, i + 1, p);
    }
  }

  lemma ListedPaths(s: Segment)
    ensures forall p :: p in InvalidPaths(s) ==> IsPath(s, p) && At(s, p).IsInvalid()
  {
    forall p | p in InvalidPaths(s) ensures IsPath(s, p) && At(s, p).IsInvalid() {
      ListedAreInvalid(s, p);
    }
  }

  lemma {:induction false} WithinSegment(s: Segment, p: Path)
    requires Valid(s) && IsPath(s, p)
    ensures Valid(At(s, p)) && s.startAt <= At(s, p).startAt <= At(s, p).endAt <= s.endAt
    decreases p
  {
    if p != [] {
      ChildBounds(s, p[0]);
      WithinSegment(s.children[p[0]], p[1..]);
    }
  }

  lemma {:induction false} InvalidSorted(s: Segment, i: nat, j: nat)
    requires Valid(s) && i < j < |InvalidPaths(s)|
    ensures var ps := InvalidPaths(s);
      IsPath(s, ps[i]) && IsPath(s, ps[j]) && At(s, ps[i]).endAt <= At(s, ps[j]).startAt
    decreases s, 1
  {
    KidsSorted(s, 0, i, j);
  }

  lemma {:induction false} KidsSorted(s: Segment, n: nat, i: nat, j: nat)
    requires Valid(s) && n <= |s.children| && i < j < |KidPaths(s.children, n)|
    ensures var ps := KidPaths(s.children, n);
      IsPath(s, ps[i]) && IsPath(s, ps[j]) && At(s, ps[i]).endAt <= At(s, ps[j]).startAt
    decreases s, 0, |s.children| - n
  {
    var cs, ps := s.children, KidPaths(s.children, n);
    var first := InvalidPaths(cs[n]);
    ForestBounds(cs, s.startAt, s.endAt, s.context);
    if |first| <= i {
      KidsSorted(s, n + 1, i - |first|, j - |first|);
    } else if j < |first| {
      InvalidSorted(cs[n], i, j);
      assert ps[i] == [n] + first[i] && ps[j] == [n] + first[j];
      assert ps[i][1..] == first[i] && ps[j][1..] == first[j];
    } else {
      assert ps[i] == [n] + first[i] && ps[i][1..] == first[i];
      ListedAreInvalid(cs[n], first[i]);
      WithinSegment(cs[n], first[i]);
      assert ps[j] in KidPaths(cs, n + 1);
      KidsAreInvalid(cs, n + 1, ps[j]);
      WithinSegment(cs[ps[j][0]], ps[j][1..]);
    }
  }

  /** `get_invalid_at`: the first invalid segment that touches `offset`. */
  method GetInvalidAt(root: Segment, offset: int) returns (r: Option<Path>)
    requires Valid(root)
    ensures r.Some? ==> IsPath(root, r.value) && At(root, r.value).IsInvalid() && At(root, r.value).Touches(offset)
    ensures r.None? ==> forall p :: IsPath(root, p) && At(root, p).IsInvalid() ==> !At(root, p).Touches(offset)
  {
    var invalid := InvalidPaths(root);
    ListedPaths(root);
    var i := 0;
    while i < |invalid|
      invariant 0 <= i <= |invalid|
      invariant forall j :: 0 <= j < i ==> !At(root, invalid[j]).Touches(offset)
    {
      var segment := At(root, invalid[i]);
      if segment.startAt > offset {
        break;
      }
      if segment.endAt >= offset {
        return Some(invalid[i]);
      }
      i := i + 1;
    }
    r := None;
    forall p | IsPath(root, p) && At(root, p).IsInvalid() ensures !At(root, p).Touches(offset) {
      InvalidAreListed(root, p);
      var j :| 0 <= j < |invalid| && invalid[j] == p;
      if i < j {
        InvalidSorted(root, i, j);
        WithinSegment(root, invalid[i]);
      }
    }
  }

  /** An invalid segment that touches `offset` is an insertion place. */
  lemma {:induction false} InvalidIsPlace(s: Segment, p: Path, offset: int)
    requires Valid(s) && IsPath(s, p) && At(s, p).IsInvalid() && At(s, p).Touches(offset)
    ensures IsPlace(s, p, 0, offset) && Innermost(s, p, offset)
    decreases p
  {
    WithinSegment(s, p);
    if p != [] {
      ChildBounds(s, p[0]);
      InvalidIsPlace(s.children[p[0]], p[1..], offset);
    }
  }
}
