/** The coalesced region of edits that the tree does not know about yet
    (`invalid_region`, `invalidate_region`). */
module InvalidRegion {
  import opened Lines

  /** `text` is the buffer, `synced` the text the tree was made for.  Outside
      [start, end) of the buffer the two agree, and `delta` is the difference of
      their lengths. */
  ghost predicate Coalesced(synced: string, text: string, start: int, end: int, delta: int) {
    && 0 <= start <= end <= |text|
    && start <= end - delta <= |synced|
    && |text| == |synced| + delta
    && text[..start] == synced[..start]
    && text[end..] == synced[end - delta..]
  }

  function Min(a: int, b: int): int { if a < b then a else b }
  function Max(a: int, b: int): int { if a < b then b else a }

  /** A mark with left gravity stays before text inserted at it; one with right
      gravity stays after it. */
  function LeftMarkAfterInsert(mark: int, offset: int, length: int): int {
    if mark > offset then mark + length else mark
  }

  function RightMarkAfterInsert(mark: int, offset: int, length: int): int {
    if mark >= offset then mark + length else mark
  }

  function MarkAfterDelete(mark: int, offset: int, length: int): int {
    if mark > offset then Max(offset, mark - length) else mark
  }

  function Insert(text: string, offset: nat, s: string): string
    requires offset <= |text|
  {
    text[..offset] + s + text[offset..]
  }

  function Delete(text: string, offset: nat, length: nat): string
    requires offset + length <= |text|
  {
    text[..offset] + text[offset + length..]
  }

  // ----- edits -----

  datatype Edit = Insertion(offset: nat, text: string) | Deletion(offset: nat, length: nat)

  predicate Possible(text: string, edit: Edit) {
    match edit
    case Insertion(offset, s) => offset <= |text| && s != ""
    case Deletion(offset, length) => offset + length <= |text| && length > 0
  }

  function Apply(text: string, edit: Edit): string
    requires Possible(text, edit)
  {
    match edit
    case Insertion(offset, s) => Insert(text, offset, s)
    case Deletion(offset, length) => Delete(text, offset, length)
  }

  predicate AllPossible(text: string, edits: seq<Edit>)
    decreases |edits|
  {
    edits == [] || (Possible(text, edits[0]) && AllPossible(Apply(text, edits[0]), edits[1..]))
  }

  function ApplyAll(text: string, edits: seq<Edit>): string
    requires AllPossible(text, edits)
    decreases |edits|
  {
    if edits == [] then text else ApplyAll(Apply(text, edits[0]), edits[1..])
  }

  /** The invalid region; the marks stay where they are while it is empty. */
  datatype Region = Region(empty: bool, start: int, end: int, delta: int)
  {
    /** `invalidate_region` */
    function Touch(offset: int, length: int): Region {
      var e := if length >= 0 then offset + length else offset;
      if empty then Region(false, offset, e, length) else Region(false, Min(start, offset), Max(end, e), delta + length)
    }

    /** The region after an edit that leads to `text`. */
    function After(text: string, edit: Edit): Region
      requires edit.Insertion? ==> edit.offset + |edit.text| <= |text|
    {
      match edit
      case Insertion(offset, s) =>
        var e := offset + |s|;
        var r := this.(start := LeftMarkAfterInsert(start, offset, |s|), end := RightMarkAfterInsert(end, offset, |s|)).Touch(offset, |s|);
        if e < |text| && IsLineStart(text, e) && text[e] != '\n' then r.Touch(LineTextEnd(text, e), 0) else r
      case Deletion(offset, length) =>
        this.(start := MarkAfterDelete(start, offset, length), end := MarkAfterDelete(end, offset, length)).Touch(offset, 0 - length)
    }

    function AfterAll(text: string, edits: seq<Edit>): Region
      requires AllPossible(text, edits)
      decreases |edits|
    {
      if edits == [] then this
      else After(Apply(text, edits[0]), edits[0]).AfterAll(Apply(text, edits[0]), edits[1..])
    }
  }

  /** The region says how the two texts differ. */
  ghost predicate Describes(r: Region, synced: string, text: string) {
    if r.empty then text == synced else Coalesced(synced, text, r.start, r.end, r.delta)
  }

  /** Every edit keeps it so: what lies before and after the region is unchanged. */
  lemma InsertionDescribes(r: Region, synced: string, text: string, offset: nat, s: string)
    requires Describes(r, synced, text) && Possible(text, Insertion(offset, s))
    ensures var edit := Insertion(offset, s); var next := r.After(Apply(text, edit), edit); !next.empty && Describes(next, synced, Apply(text, edit))
  {
    hide Coalesced, LineTextEnd, IsLineStart;
    if r.empty { FirstInsertion(text, offset, s); } else { NextInsertion(synced, text, r.start, r.end, r.delta, offset, s); }
    var x, e := Insert(text, offset, s), offset + |s|;
    var m := r.(start := LeftMarkAfterInsert(r.start, offset, |s|), end := RightMarkAfterInsert(r.end, offset, |s|)).Touch(offset, |s|);
    if e < |x| && IsLineStart(x, e) && x[e] != '\n' { Widened(synced, x, m.start, m.end, m.delta, LineTextEnd(x, e)); }
  }

  lemma AfterDescribes(r: Region, synced: string, text: string, edit: Edit)
    requires Describes(r, synced, text) && Possible(text, edit)
    ensures var next := r.After(Apply(text, edit), edit); !next.empty && Describes(next, synced, Apply(text, edit))
  {
    hide Coalesced;
    match edit
    case Insertion(offset, s) =>
      InsertionDescribes(r, synced, text, offset, s);
    case Deletion(offset, length) =>
      if r.empty { FirstDeletion(text, offset, length); } else { NextDeletion(synced, text, r.start, r.end, r.delta, offset, length); }
  }

  lemma {:induction false} AllDescribed(r: Region, synced: string, text: string, edits: seq<Edit>)
    requires Describes(r, synced, text) && AllPossible(text, edits)
    ensures Describes(r.AfterAll(text, edits), synced, ApplyAll(text, edits))
    ensures edits != [] ==> !r.AfterAll(text, edits).empty
    decreases |edits|
  {
    if edits != [] {
      AfterDescribes(r, synced, text, edits[0]);
      var next := r.After(Apply(text, edits[0]), edits[0]);
      AllDescribed(next, synced, Apply(text, edits[0]), edits[1..]);
      if edits[1..] == [] { assert next.AfterAll(Apply(text, edits[0]), edits[1..]) == next; }
    }
  }

  lemma FirstInsertion(text: string, offset: nat, s: string)
    requires offset <= |text|
    ensures Coalesced(text, Insert(text, offset, s), offset, offset + |s|, |s|)
  {
    var t := Insert(text, offset, s);
    assert t[..offset] == text[..offset];
    assert t[offset + |s|..] == text[offset..];
  }

  lemma FirstDeletion(text: string, offset: nat, length: nat)
    requires offset + length <= |text|
    ensures Coalesced(text, Delete(text, offset, length), offset, offset, 0 - length)
  {
    var t := Delete(text, offset, length);
    assert t[..offset] == text[..offset];
    assert t[offset..] == text[offset + length..];
  }

  lemma NextInsertion(synced: string, text: string, start: int, end: int, delta: int, offset: nat, s: string)
    requires Coalesced(synced, text, start, end, delta) && offset <= |text|
    ensures Coalesced(synced, Insert(text, offset, s),
                      Min(LeftMarkAfterInsert(start, offset, |s|), offset),
                      Max(RightMarkAfterInsert(end, offset, |s|), offset + |s|),
                      delta + |s|)
  {
    var t := Insert(text, offset, s);
    var start', end' := Min(LeftMarkAfterInsert(start, offset, |s|), offset),
                        Max(RightMarkAfterInsert(end, offset, |s|), offset + |s|);
    assert t[..start'] == text[..start'];
    SamePrefix(synced, text, start, start');
    assert t[end'..] == text[end' - |s|..];
    SameSuffix(synced, text, end, delta, end' - |s|);
  }

  lemma NextDeletion(synced: string, text: string, start: int, end: int, delta: int, offset: nat, length: nat)
    requires Coalesced(synced, text, start, end, delta) && offset + length <= |text|
    ensures Coalesced(synced, Delete(text, offset, length),
                      Min(MarkAfterDelete(start, offset, length), offset),
                      Max(MarkAfterDelete(end, offset, length), offset),
                      delta - length)
  {
    var t := Delete(text, offset, length);
    var start', end' := Min(MarkAfterDelete(start, offset, length), offset),
                        Max(MarkAfterDelete(end, offset, length), offset);
    assert t[..start'] == text[..start'];
    SamePrefix(synced, text, start, start');
    assert t[end'..] == text[end' + length..];
    SameSuffix(synced, text, end, delta, end' + length);
  }

  lemma Widened(synced: string, text: string, start: int, end: int, delta: int, offset: nat)
    requires Coalesced(synced, text, start, end, delta) && offset <= |text|
    ensures Coalesced(synced, text, Min(start, offset), Max(end, offset), delta)
  {
    SamePrefix(synced, text, start, Min(start, offset));
    SameSuffix(synced, text, end, delta, Max(end, offset));
  }

  lemma SamePrefix(synced: string, text: string, start: int, to: int)
    requires 0 <= to <= start <= |text| && start <= |synced| && text[..start] == synced[..start]
    ensures text[..to] == synced[..to]
  {
    assert text[..to] == text[..start][..to];
    assert synced[..to] == synced[..start][..to];
  }

  lemma SameSuffix(synced: string, text: string, end: int, delta: int, from: int)
    requires 0 <= end <= from <= |text| && 0 <= end - delta && |text| == |synced| + delta
    requires text[end..] == synced[end - delta..]
    ensures text[from..] == synced[from - delta..]
  {
    assert text[from..] == text[end..][from - end..];
    assert synced[from - delta..] == synced[end - delta..][from - end..];
  }
}
