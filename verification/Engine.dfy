/** The engine: the buffer's text, the tree, and the edits between them. */
module Engine {
  import opened Wrappers
  import opened Contexts
  import opened Language
  import opened Lines
  import opened SegmentTree
  import opened SegmentRemove
  import opened InvalidRegion
  import opened Consistency
  import opened EditStep
  import opened OpenEnd
  import opened Account
  import opened SyntaxEnd
  import opened UpdateSyntax

  class Engine {
    const lang: Language
    var text: string
    var root: Segment

    // the invalid region; `start` and `end` are marks of the buffer
    var empty: bool
    var start: int
    var end: int
    var delta: int

    /** The text the tree was last brought in step with. */
    ghost var synced: string

    /** The beginnings of the lines that the analysis has left as they were although
        they may not be right. */
    ghost var missed: set<int>

    function RegionNow(): Region
      reads this`empty, this`start, this`end, this`delta
    {
      Region(empty, start, end, delta)
    }

    ghost predicate Valid()
      reads this
    {
      && lang.Consuming()
      && Sound(root, synced)
      && Consistent(lang, root, synced, -1, missed) && EndSettled(lang, root, synced, -1, missed)
      && Describes(RegionNow(), synced, text)
    }

    /** `all_analyzed` */
    predicate AllAnalyzed()
      reads this`empty, this`root
    {
      empty && InvalidCount(root.children) == 0
    }

    /** Attaching a buffer: an empty tree, and all the text is one insertion. */
    constructor (lang: Language, buffer: string)
      requires lang.Consuming()
      ensures Valid() && Regular(root, synced) && missed == {} && this.lang == lang && text == buffer
      ensures root == Segment(Some(Root), 0, 0, true, []) && synced == ""
      ensures RegionNow() == Region(buffer == "", 0, |buffer|, |buffer|)
    {
      this.lang := lang;
      text := buffer;
      root := Segment(Some(Root), 0, 0, true, []);
      empty := buffer == "";
      start, end, delta := 0, |buffer|, |buffer|;
      synced, missed := "", {};
      new;
      hide Consistent, EndSettled, Sound, Coalesced;
      EmptyTree(lang, buffer);
    }

    // ----- edits -----

    /** `invalidate_region`, called after the text changed and the buffer moved
        its marks. */
    method InvalidateRegion(offset: nat, length: int)
      modifies this`empty, this`start, this`end, this`delta
      ensures RegionNow() == old(RegionNow()).Touch(offset, length)
    {
      var endOffset := if length >= 0 then offset + length else offset;
      if empty {
        empty := false;
        delta := length;
        start, end := offset, endOffset;
      } else {
        if start > offset {
          start := offset;
        }
        if end < endOffset {
          end := endOffset;
        }
        delta := delta + length;
      }
    }

    /** Text is inserted, and the buffer moves its marks.  When the inserted text ends at
        the start of a line with text in it, that line is part of the region. */
    method TextInserted(offset: nat, s: string)
      requires Valid() && Possible(text, Insertion(offset, s))
      modifies this`text, this`empty, this`start, this`end, this`delta
      ensures Valid() && text == Insert(old(text), offset, s)
      ensures !empty && RegionNow() == old(RegionNow()).After(text, Insertion(offset, s))
    {
      hide Consistent, EndSettled, Sound, Describes, Region.Touch;
      AfterDescribes(RegionNow(), synced, text, Insertion(offset, s));
      text := Insert(text, offset, s);
      start := LeftMarkAfterInsert(start, offset, |s|);
      end := RightMarkAfterInsert(end, offset, |s|);
      InvalidateRegion(offset, |s|);
      var e := offset + |s|;
      if e < |text| && IsLineStart(text, e) && text[e] != '\n' {
        InvalidateRegion(LineTextEnd(text, e), 0);
      }
    }

    /** Text is deleted. */
    method TextDeleted(offset: nat, length: nat)
      requires Valid() && Possible(text, Deletion(offset, length))
      modifies this`text, this`empty, this`start, this`end, this`delta
      ensures Valid() && text == Delete(old(text), offset, length)
      ensures !empty && RegionNow() == old(RegionNow()).After(text, Deletion(offset, length))
    {
      hide Consistent, EndSettled, Sound, Describes, Region.Touch;
      AfterDescribes(RegionNow(), synced, text, Deletion(offset, length));
      text := Delete(text, offset, length);
      start := MarkAfterDelete(start, offset, length);
      end := MarkAfterDelete(end, offset, length);
      InvalidateRegion(offset, 0 - length);
    }

    // ----- bringing the tree in step and analyzing -----

    /** `update_tree`.  The hints are arbitrary. */
    method UpdateTree(hint: nat, hint2: nat)
      requires Valid()
      modifies this`root, this`empty, this`synced, this`missed
      ensures Valid() && empty && synced == text
      ensures old(empty) ==> root == old(root) && missed == old(missed)
      ensures !old(empty) ==>
        && Edited(old(root), root, old(synced), text, start, end, delta)
        && Placed(old(root), root, start, end, delta)
        && missed == EditMissed(old(root), root, old(synced), text, end, delta, old(missed))
    {
      hide Consistent, EndSettled, Sound, Coalesced, Edited, Placed, EditMissed;
      if empty {
        return;
      }
      root, missed := BringInStep(lang, root, synced, text, start, end, delta, hint, hint2, missed);
      empty := true;
      synced := text;
    }

    /** `update_syntax`: `limit` is the offset up to which the text is wanted analyzed,
        `budget` the number of lines the time suffices for.  `before` and `stale` are the
        tree and the missed lines after `update_tree`, `from` the first line analyzed, and
        `swallowed` the lines whose marks were lost. */
    method UpdateSyntax(limit: Option<nat>, budget: Option<nat>, hint: nat, hint2: nat)
      returns (ghost before: Segment, ghost stale: set<int>, ghost from: nat, ghost swallowed: set<int>)
      requires Valid() && (limit.Some? ==> limit.value <= |text|)
      modifies this`root, this`empty, this`synced, this`missed
      ensures Valid() && empty && synced == text
      ensures old(empty) ==> before == old(root) && stale == old(missed)
      ensures !old(empty) ==>
        && Edited(old(root), before, old(synced), text, start, end, delta)
        && Placed(old(root), before, start, end, delta)
        && stale == EditMissed(old(root), before, old(synced), text, end, delta, old(missed))
      ensures Sound(before, text) && Updated(lang, before, root, text, stale, missed, swallowed)
      ensures Advanced(before, root, text, from, limit, budget)
      ensures InvalidCount(before.children) == 0 && text != "" ==> root == before && missed == stale && swallowed == {}
      ensures limit.None? && budget.None? ==> AllClean(root, text)
    {
      hide Sound, Consistent, EndSettled, AllClean, Describes, Edited, Placed, Advanced, EditMissed, Beyond, Behind, Blamed, Doubt, DoubtEnds, Stray, LosesMark;
      UpdateTree(hint, hint2);
      before, stale := root, missed;
      root, missed, from, swallowed := AnalyzeText(lang, root, text, limit, budget, missed);
    }
  }

  /** The exact theorem, for every run: with everything analyzed, every character has the
      context of one scan of the whole text exactly if every missed line is right all the
      same, and the end of the text is not open unless the last line is a missed one.  With
      no line missed only an open end can go wrong. */
  lemma IncrementalIsScan(e: Engine)
    requires e.Valid() && e.AllAnalyzed()
    ensures IsScan(e.lang, e.root, e.text) <==>
      AllRight(e.lang, e.root, e.text, e.missed) && (e.text != "" && LastLine(e.text) !in e.missed ==> !EndIsOpen(e.lang, e.text))
    ensures e.missed == {} ==> (IsScan(e.lang, e.root, e.text) <==> !EndIsOpen(e.lang, e.text))
  {
    hide IsScan, EndIsOpen, Consistent, EndSettled, Sound;
    CountIsClean(e.root, e.text);
    MissedTheorem(e.lang, e.root, e.text, e.missed);
    if e.text == "" { EmptyNotOpen(e.lang); }
  }

  lemma EmptyNotOpen(lang: Language)
    requires lang.Consuming()
    ensures !EndIsOpen(lang, "")
  {
  }
}
