# Proofs about medit's editing core

A Dafny model of five parts of medit, and proofs about it:

- the **incremental syntax engine** of `moo/gtksourceview/gtksourcecontextengine.c`: the tree
  of text segments, its invalid region, `update_tree` and `update_syntax`, the lookups, the
  contexts with freezing, the combined regular expression, the definition iterator and the
  highlighting tags;
- the **session-management client** of `moo/eggsmclient`: the X11 client's state machine
  against a session manager with messages in flight both ways (X Session Management Protocol,
  section 9.1), and the two-thread handshake of the Windows backend;
- the **Exec key** of desktop files: field codes, quoting (sections 2.2 and 2.3 of the POSIX
  Shell Command Language) and the launch loop;
- **search without regard to case**, with positions mapped back through folding;
- **style schemes**: parent chains, and style lookup with a cache.

`dafny verify dfyconfig.toml` verifies the whole project.

## How the engine is modelled

The tree exists twice.  As a value it is a `Segment` with a sequence of children
(`SegmentTree.dfy`), and what a tree says about a text is the deepest segment at each
character.  On the heap it is made of `Node`s with parent, sibling and child pointers
(`SegmentLinks.dfy`), next to a `Segments` object that holds the list of invalid segments and
the two search hints (`SegmentState.dfy`).  `NodeTree.Whole` says that the nodes form the tree
that a ghost `Item` describes, that the list holds its invalid segments in order, and that
the hints are unset or in the tree; every tree operation is a method on the heap that keeps
`Whole` and whose resulting tree is the value that the operation on values gives.  The
properties of labels, lines and runs are then proved of the values.  Search hints are arbitrary
on the values and live nodes on the heap.

The analysis of a line (`Language.dfy`, `LineAnalysis.dfy`) is a function of the context at its
beginning, its text and whether it is the first.  Patterns are an abstract relation between a
pattern, a line, a position and the length of the match; `Consuming` says that no match is
empty.  What a step of the analysis is, `Transitions.Happens` says of the definitions, the
matches and the path of the context alone: which end or start comes first, at the same place the
outermost ancestor that may end before the first child before the own end, where a match is cut,
and where the step leads.  `LineMeaning.LineMeans` puts the steps of a line and its end together,
and `ScanMeaning.TextMeans` the lines of a text.  A scan of the whole text from the toplevel
context (`Lines.Scan`), which is exactly that (`ScanMeaning.ScanIsMeant`), is what the
incremental analysis is compared with.  The only line terminator is the newline; a character
is one position.  The time limit of `update_syntax` is a number of lines that the time suffices
for, and nothing is assumed about it.

## What holds of the incremental analysis, and what does not

That incremental analysis always gives what one scan gives is **not** true of the code.  There
are three ways to fail, each with a run of the engine, and the theorems say exactly when it
holds, for all runs.

- **Open end.**  The text ends in a context other than the toplevel one, and its last character
  belongs to a simple context: stopping at the end marks it with an empty insertion there, which
  makes that segment invalid, and then removes it (`OpenEndExample.EndIsLost`).
  `OpenEnd.EndIsOpen` is the condition; it depends on the text only.  Only that one segment has
  another context then (`Consistency.Torn`), and everything before the last line is right.
- **The line after a batch.**  A batch of edits whose region ends where a line begins that
  was no line before: when the states at its beginning agree, that line is not looked at
  (`BatchExample.BatchMissesLine`, `q`, `xk` with two edits).  `EditRuns.RegionMissed` is the
  condition, on the two texts and the region.  No single edit does this.
- **A lost mark.**  An empty invalid segment at the beginning of a line is erased together with
  the line before it, and nothing else says that the line is to be analyzed
  (`LostMarkExample.MarkIsLost`: an insertion, one time slice, a deletion, and the rest).
  `LineStep.MarkHolds` is the condition, on the tree when the analysis passes the line.

`Interleaving.RunBuffer` is the theorem for every run: a buffer is opened, and then edited and
analyzed in any order, with any limits and time slices.  When everything is analyzed in the end,
then if no call has a fault of the second or the third kind, the tree is the scan exactly if the
end of the text is not open.  In any case it is the scan exactly if the lines that were left as
they were are right all the same.  For the other side, `FirstFault` finds in the first call with
a fault the first line that may go wrong, `FaultDecides` says what becomes of it (it is left as
it was if the toplevel segment spans its start, and otherwise only if the analysis did not come
to it and the state before it is unchanged; left so, it is wrong exactly if its labels are not
those of its analysis from the state that is before it now), and `FaultyRun` that a line that
went wrong stays wrong as long as later regions begin after it.

What every call does is one account, `Account.Updated`, for every state of the engine: which
lines keep their contexts, which may be left although they may not be right (a line is blamed on
a lost mark or a lost beginning at it or before it, and on nothing else), and what becomes of
the first line in doubt.  Accounts of calls add up (`Account.UpdatedTwice`).

Where the buffer is analyzed to the end before each batch of edits, all this is read off the
texts: `EditRuns.EditBatches` gives after any run of batches a standing (no line is missed; or
right up to some line; or wrong from some line on), computed from the texts and the edits alone.
An edit that meets the lines that may be wrong heals them (`EditRuns.RegionHeals`), and single
edits never leave anything wrong but an open end (`EditRuns.SingleEditsExact`).

More results of this kind:

- An Exec key with a **backslash before a field code** is read differently when it is loaded and
  when it is launched.  `ExecExpansion.EscapedCode` has inputs for both directions, and
  `ExecLaunch.GoesOnForever` says exactly when the launch loop never ends.
- Stopping at the first context that ANCESTOR_CAN_END_CONTEXT does not hold for loses nothing: no
  ancestor beyond it can end there (`Transitions.CanEndMeans`).
- What the session client remembers of a request (`SessionClient.Demand`) stays until the next
  one, and decides every message and event of it, at once or deferred (`SessionRuns`).
- The case-insensitive search finds the first place where the folded buffer goes on with the
  folded text (`FoldedLines.ForwardSearch`), but the range it reports is exact only if it ends on a
  character boundary (`FoldedLines.FoundIsExact`).  For a text that goes on after a line break it
  need not, because only the first line is compared with an eye on what follows
  (`FoldedLines.LastLineLoose`).
- With an empty segment at the offset the two lookups may part; `SegmentLookup.CheckedLookup`
  covers all other cases.

The files follow the program: `Segment*` and `TreeUpdate` (the tree as a value), `Node*`,
`RootErase` (the tree on the heap), `Dirt*`, `EmptyMarks`, `Labelling`, `InvalidExtent` (what the
operations do to labels and marks), `Line*`, `Spine`, `Consistency`, `EditStep`, `OpenEnd`,
`Interruption`, `Account`, `Syntax*`, `UpdateSyntax`, `Engine`, `TimeSlices`, `Interleaving`,
`EditRuns` (the analysis, bottom up), `Transitions`, `LineMeaning`, `ScanMeaning` (what one line and
the scan mean), and one file or two for each of the other parts.

## Model

| member | source | states |
|---|---|---|
| Interleaving.RunBuffer | moo/gtksourceview/gtksourcecontextengine.c:1967-2118 | A buffer is opened, then edited and analyzed in any order, with any limits, time slices and hints: with everything analyzed in the end, if `update_tree` never missed a line and every mark held when its line was passed, every character has the context that one scan of the whole text gives it if and only if the end of the text is not open; and in any run if and only if the lines left as they were are right |
| Interleaving.FirstFault | moo/gtksourceview/gtksourcecontextengine.c:5416-5648 | The other side: in a call with a fault after none there is a first line that may go wrong; nothing before it is missed, lost or a stray beginning |
| Interleaving.FaultDecides | moo/gtksourceview/gtksourcecontextengine.c:5496-5619 | What becomes of that line once the analysis got there: left as it was if the toplevel segment spans its start, and then wrong if and only if its contexts are not those of its analysis from the state before it; analyzed otherwise, unless it was passed over with its state unchanged |
| Interleaving.WrongStays | moo/gtksourceview/gtksourcecontextengine.c:5416-5648 | A wrong line stays wrong over a call whose region begins after it |
| Interleaving.FaultyRun | moo/gtksourceview/gtksourcecontextengine.c:5416-5648 | Over whole runs: the first call with a fault has such a line, and if it goes wrong and later regions begin after it, the tree is not the scan in the end |
| Account.UpdatedTwice | moo/gtksourceview/gtksourcecontextengine.c:2061-2118 | The account of two calls one after the other is one account: lines done keep their contexts, a line newly left is blamed on a lost mark or beginning not after it, and the first line in doubt is decided |
| Account.HeldOn | moo/gtksourceview/gtksourcecontextengine.c:5416-5648 | Where every mark holds beforehand none is lost in a call |
| Interleaving.MarksHeld | moo/gtksourceview/gtksourcecontextengine.c:5416-5648 | So a call in whose tree every mark holds is without a fault of that kind |
| EmptyMarks.UpdatedClean | moo/gtksourceview/gtksourcecontextengine.c:1893-1951 | `update_tree` makes nothing to be analyzed away from its region that was not before |
| EditRuns.AnalyzeBuffer | moo/gtksourceview/gtksourcecontextengine.c:2218-2329 | A buffer that is opened and analyzed, for any partial calls, time slices and hints: every character has the context that one scan of the whole text from the toplevel context gives it, if and only if the end of the text is not open |
| EditRuns.EditsAndUpdate | moo/gtksourceview/gtksourcecontextengine.c:1893-1951 | Any non-empty batch of insertions and deletions of an analyzed buffer, then the analysis, whatever was wrong before: the standing afterwards is computed from the two texts and the edits alone, and means what `Says` says |
| EditRuns.EditBatches | moo/gtksourceview/gtksourcecontextengine.c:5496-5619 | Any run of batches, with the analysis after each: `Exact` means the scan if and only if the end is not open, `WrongAt` the scan up to that line and not the scan, `Partly` the scan up to the first of its lines |
| EditRuns.RegionHeals | moo/gtksourceview/gtksourcecontextengine.c:1893-1951 | An edit whose region meets every line that may be wrong, and after which no line with text begins, leaves nothing missed |
| EditRuns.LineHeals | moo/gtksourceview/gtksourcecontextengine.c:1675-1701 | A single edit of a line makes good whatever was wrong with it |
| EditRuns.SingleEditNext | moo/gtksourceview/gtksourcecontextengine.c:1675-1701 | After a single insertion or deletion nothing but an open end can be wrong: `text_inserted` takes in the line that follows a line break |
| EditRuns.SingleEditsExact | moo/gtksourceview/gtksourcecontextengine.c:1675-1701 | In any run of single edits, with the analysis after each, nothing but an open end is ever wrong |
| EditRuns.StandingHolds | moo/gtksourceview/gtksourcecontextengine.c:5496-5619 | The standing after a batch follows from the texts and the region: the step behind the theorems about batches |
| EditRuns.AnalyzeRegion | moo/gtksourceview/gtksourcecontextengine.c:1967-2012 | The same for a region of edits the tree does not know about yet, with every hint |
| TimeSlices.AnalyzeInSlices | moo/gtksourceview/gtksourcecontextengine.c:2061-2118 | From any state of the engine, and after any calls for parts of the text, the time slices come to an end with everything analyzed, and all calls together have one account |
| TimeSlices.Continue | moo/gtksourceview/gtksourcecontextengine.c:2075-2093 | One more call, for any state: the account since the start is extended |
| Engine.Engine.UpdateSyntax | moo/gtksourceview/gtksourcecontextengine.c:5416-5648 | `update_syntax` for every state, limit, time and hint: the tree before and after `update_tree` as its contract says, then the account of the analysis, progress by at least the first line, and nothing left without a limit |
| Engine.Engine.UpdateTree | moo/gtksourceview/gtksourcecontextengine.c:1893-1951 | The tree is in step with the text afterwards and is one that the two halves of `update_tree` give; exactly the lines `EditMissed` are missed |
| Engine.Engine.TextInserted | moo/gtksourceview/gtksourcecontextengine.c:1675-1701 | The region becomes the one of `After`, the line after a line break included, and the engine stays valid |
| Engine.Engine.TextDeleted | moo/gtksourceview/gtksourcecontextengine.c:1819-1834 | The same for a deletion |
| Engine.Engine.InvalidateRegion | moo/gtksourceview/gtksourcecontextengine.c:1489-1545 | Marks and length difference are updated as `Touch` says |
| Engine.Engine.constructor | moo/gtksourceview/gtksourcecontextengine.c:2218-2329 | An attached buffer: an empty tree, all the text one insertion |
| Engine.IncrementalIsScan | moo/gtksourceview/gtksourcecontextengine.c:5496-5619 | In every reachable state with everything analyzed: the tree is the scan if and only if every missed line is right all the same, and the end is not open unless the last line is a missed one |
| UpdateSyntax.AnalyzeText | moo/gtksourceview/gtksourcecontextengine.c:5416-5648 | The part of `update_syntax` after `update_tree`, for every tree: the account of the analysis, and which lines it got over |
| SyntaxLoop.AnalyzeLines | moo/gtksourceview/gtksourcecontextengine.c:5496-5619 | The main loop for every tree: when it stops, for whatever reason, the account `Updated` holds |
| SyntaxEnd.SettleEnd | moo/gtksourceview/gtksourcecontextengine.c:5575-5648 | Stopping at the end of the text: the mark that is made there and removed again leaves the last label settled, and changes no context but those of a simple segment at an open end |
| SyntaxUpdate.Round | moo/gtksourceview/gtksourcecontextengine.c:5496-5619 | One round with the decision whether to go on, for every tree: exactly which lines count as missed afterwards |
| SyntaxRound.AnalyzeLineAt | moo/gtksourceview/gtksourcecontextengine.c:5496-5560 | Erasing a line, finding the state and analyzing it: exactly that line gets the labels of `analyze_line`, and the next line keeps its mark if and only if the mark holds |
| SyntaxRound.MarkLost | moo/gtksourceview/gtksourcecontextengine.c:5117-5222 | The mark on the next line is lost if and only if it is nothing but empty invalid segments at the line's beginning |
| LostMarkExample.MarkIsLost | moo/gtksourceview/gtksourcecontextengine.c:5117-5222 | The input of that family, run through the engine: `q`, `>`, `xk` with `<` inserted in front, one time slice, the `x` deleted, and the rest analyzed: the keyword is not found, with nothing left to do |
| BatchExample.BatchMissesLine | moo/gtksourceview/gtksourcecontextengine.c:5416-5648 | The input of the batch family, run from the constructor to the end: an insertion and a deletion in one batch, everything analyzed, and the tree is not the scan |
| OpenEnd.ScanEndSettled | moo/gtksourceview/gtksourcecontextengine.c:5575-5648 | In a tree that is the scan, with nothing left to analyze, the last label settles exactly whether the end is open |
| OpenEndExample.EndIsLost | moo/gtksourceview/gtksourcecontextengine.c:5575-5648 | The input of the open-end family, run through the engine: the buffer `*T` with comments and notes |
| LineStep.StepKeeps | moo/gtksourceview/gtksourcecontextengine.c:4537-4617 | One line erased and analyzed: all other lines stay as they were, and exactly which beginnings are stray ones |
| LineStep.StepStops | moo/gtksourceview/gtksourcecontextengine.c:5496-5619 | When the loop does not go on, the lines that may not be right are those of `After` |
| EditStep.EditKeeps | moo/gtksourceview/gtksourcecontextengine.c:1893-1951 | `update_tree` keeps every line consistent, to be analyzed or among the lines of `EditMissed`, for every region |
| OpenEnd.MissedTheorem | moo/gtksourceview/gtksourcecontextengine.c:4537-4617 | With nothing to analyze, the tree is the scan if and only if every missed line is right and, unless the last line is missed, the end is not open |
| LineBuild.AnalyzeLine | moo/gtksourceview/gtksourcecontextengine.c:4537-4617 | Building the segments of a line gives its characters exactly the contexts that the steps which happen from its first state on give them, and ends in the state that the line end leads to |
| LineMeaning.LineIsMeant | moo/gtksourceview/gtksourcecontextengine.c:4537-4617 | The contexts of a line and the state after it are the only ones that the steps and the line end give |
| ScanMeaning.ScanIsMeant | moo/gtksourceview/gtksourcecontextengine.c:5496-5560 | The scan that the incremental analysis is compared with: every line analyzed in the state in which the one before it has ended, and no other labelling is that |
| CombinedRegex.NextSegment | moo/gtksourceview/gtksourcecontextengine.c:4292-4415 | With the combined expression or without it the loop finds what happens first in the line: nothing happens before, and at that place the outermost ancestor that may end and does wins, then the first child that is allowed and starts, then the own end; None if and only if nothing happens |
| Transitions.NextStepMeans | moo/gtksourceview/gtksourcecontextengine.c:4292-4415 | The step function of the line analysis is that, said of the definitions, the matches and the path of the context alone |
| Transitions.NextOnce | moo/gtksourceview/gtksourcecontextengine.c:4292-4415 | And nothing else is: what is said of a step determines it |
| Transitions.CanEndMeans | moo/gtksourceview/gtksourcecontextengine.c:90-97 | ANCESTOR_CAN_END_CONTEXT holds exactly if some context on the path does not extend its parent, so stopping at it loses no ancestor that ends |
| Transitions.CutMeans | moo/gtksourceview/gtksourcecontextengine.c:3006-3065 | A match is taken whole, or cut where first an ancestor ends in it and still matches there, and otherwise not at all |
| CombinedRegex.UnionCovers | moo/gtksourceview/gtksourcecontextengine.c:3132-3256 | Wherever an own end, an ancestor's end that may fire, or a child's start matches, the combined expression matches |
| LineAnalysis.LineEndStable | moo/gtksourceview/gtksourcecontextengine.c:4428-4461 | The line end leads to the parent of the topmost context that it ends, reached over contexts that end with the line or that an ancestor may end, and changes nothing if it ends none; a second line end changes nothing |
| InvalidRegion.AfterDescribes | moo/gtksourceview/gtksourcecontextengine.c:1489-1545 | One more edit: text before the start mark and after the end mark is the old prefix and suffix, `delta` the difference of length, and start <= min(end, end - delta) |
| InvalidRegion.AllDescribed | moo/gtksourceview/gtksourcecontextengine.c:1489-1545 | The same after any sequence of edits |
| TreeUpdate.UpdateTree | moo/gtksourceview/gtksourcecontextengine.c:1893-1951 | A sound edit of the labelling for every hint: characters outside the region keep their context or become invalid, those inside are invalid, an invalid segment touches the start, the length is the buffer's |
| TreeUpdate.UpdatedFacts | moo/gtksourceview/gtksourcecontextengine.c:1893-1951 | The same of every tree that the two halves of `update_tree` can produce, whatever places the searches pick |
| TreeUpdate.InsertedFacts | moo/gtksourceview/gtksourcecontextengine.c:1562-1664 | What `insert_range` keeps at every place it may choose |
| TreeUpdate.InsertRange | moo/gtksourceview/gtksourcecontextengine.c:1562-1664 | The search with any hint ends at such a place |
| TreeUpdate.DeletedFacts | moo/gtksourceview/gtksourcecontextengine.c:1794-1808 | Characters outside the deleted range keep their deepest segment, moved; the rest is gone |
| TreeUpdate.DeleteRange | moo/gtksourceview/gtksourcecontextengine.c:1794-1808 | Both passes from any hint delete the range |
| TreeUpdate.EraseSegments | moo/gtksourceview/gtksourcecontextengine.c:5324-5397 | The two passes from any hint erase as one pass over all children would |
| TreeUpdate.InvalidatedFacts | moo/gtksourceview/gtksourcecontextengine.c:1922-1936 | The rest of the region becomes one invalid child of the toplevel segment |
| Labelling.InsertedRootMarks | moo/gtksourceview/gtksourcecontextengine.c:1562-1664 | Per character: the deepest segment after an insertion |
| Labelling.DeletedRootMarks | moo/gtksourceview/gtksourcecontextengine.c:1714-1808 | Per character: the deepest segment after a deletion |
| Labelling.ErasedRootMarks | moo/gtksourceview/gtksourcecontextengine.c:5117-5222 | Per character: the deepest segment after erasing |
| SegmentErase.EraseForestShape | moo/gtksourceview/gtksourcecontextengine.c:5117-5222 | Erasing keeps the shape, and nothing is left in the range or empty at its ends |
| SegmentInsert.FindInsertionPlace | moo/gtksourceview/gtksourcecontextengine.c:1089-1277 | With any hint: the innermost segment that touches the offset, and the gap among its children |
| SegmentDelete.FixOffsetsDelete | moo/gtksourceview/gtksourcecontextengine.c:1714-1781 | From any hint every child is handled once |
| SegmentCreate.FindSegmentPosition | moo/gtksourceview/gtksourcecontextengine.c:3666-3783 | From any hint the gap that the new segment belongs in |
| SegmentMerge.MergedContexts | moo/gtksourceview/gtksourcecontextengine.c:5234-5309 | Merging changes no character's context |
| SegmentMerge.MergedShape | moo/gtksourceview/gtksourcecontextengine.c:5234-5309 | Merging keeps the shape |
| SegmentRemove.RemoveContexts | moo/gtksourceview/gtksourcecontextengine.c:4965-5004 | Removing a segment uncovers its characters and changes no others |
| InvalidList.GetInvalidAt | moo/gtksourceview/gtksourcecontextengine.c:1290-1312 | The search may stop at the first segment beyond the offset |
| SegmentLookup.CheckedLookup | moo/gtksourceview/gtksourcecontextengine.c:4924-4952 | With no empty segment at the offset, the hinted search and the slow one find the same segment, for all hints |
| SegmentLookup.GetSegmentAtOffset | moo/gtksourceview/gtksourcecontextengine.c:4769-4952 | The hinted search ends at the deepest segment at the offset, or at the toplevel segment for the end of the text; or, where there is one, at an empty segment there |
| SegmentLookup.GetSegmentSlow | moo/gtksourceview/gtksourcecontextengine.c:4699-4763 | The same of the reference search |
| NodeUpdate.UpdateTree | moo/gtksourceview/gtksourcecontextengine.c:1893-1951 | On the heap of nodes: afterwards the links, the sorted list of invalid segments and both hints are right, and the tree is one that `update_tree` may give, so the edit is sound |
| NodeUpdate.InvalidateRange | moo/gtksourceview/gtksourcecontextengine.c:1922-1936 | Erasing leaves no segment starting where the new one goes, so the list has a place for it |
| NodeRange.InsertRange | moo/gtksourceview/gtksourcecontextengine.c:1562-1664 | `insert_range` on the heap is the insertion on values, at the place the list or the hinted search gives; list and hints stay right |
| NodeDelete.DeleteRange | moo/gtksourceview/gtksourcecontextengine.c:1794-1808 | `delete_range_` on the heap is the deletion on values; list and hints stay right |
| RootErase.EraseSegments | moo/gtksourceview/gtksourcecontextengine.c:5324-5397 | `erase_segments` on the heap, with the hint that moves along, is erasing on values; list and hints stay right |
| NodeErase.EraseNode | moo/gtksourceview/gtksourcecontextengine.c:5117-5222 | `segment_erase_range_` on a node among its siblings: what replaces it, with the list and the hints |
| NodeErase.Split | moo/gtksourceview/gtksourcecontextengine.c:5006-5099 | `segment_erase_middle_`: two nodes that share out the children |
| NodeMerge.Merge | moo/gtksourceview/gtksourcecontextengine.c:5234-5309 | `segment_merge` with the parents first is merging on values; the second nodes leave the tree, the list and the hints |
| NodeCreate.Create | moo/gtksourceview/gtksourcecontextengine.c:3800-3853 | `create_segment`: the node is linked in its gap, and an invalid one is in its place in the list |
| NodeCreate.FindPosition | moo/gtksourceview/gtksourcecontextengine.c:3666-3783 | The pointers on both sides of the gap, from any hint |
| NodeSplit.SplitSimple | moo/gtksourceview/gtksourcecontextengine.c:1427-1475 | `simple_segment_split_`: three nodes in place of one |
| NodeInsert.MakeInvalid | moo/gtksourceview/gtksourcecontextengine.c:1386-1412 | `segment_make_invalid_`: the node goes into its place in the list |
| NodeInsert.InvalidAt | moo/gtksourceview/gtksourcecontextengine.c:1290-1312 | `get_invalid_at` on the list of the engine |
| NodeInsert.FindPlace | moo/gtksourceview/gtksourcecontextengine.c:1089-1277 | `find_insertion_place` on the heap |
| NodeGrow.GrowUp | moo/gtksourceview/gtksourcecontextengine.c:1639-1661 | The loop at the end of `insert_range`: everything to the right moves, the ancestors are extended |
| NodeShift.ShiftRow | moo/gtksourceview/gtksourcecontextengine.c:1050-1074 | `fix_offsets_insert_` on siblings and all below them |
| NodeShift.FixNode | moo/gtksourceview/gtksourcecontextengine.c:1714-1781 | `fix_offsets_delete_` from a hinted child |
| NodeRemove.RemoveSegment | moo/gtksourceview/gtksourcecontextengine.c:4965-5004 | `segment_remove`: the hints go to a neighbour or the parent, the list loses what was below |
| NodeExtend.Extend | moo/gtksourceview/gtksourcecontextengine.c:3863-3873 | `segment_extend` may stop at the first segment that reaches far enough |
| NodeWhole.Attach | moo/gtksourceview/gtksourcecontextengine.c:2218-2329 | The tree of a newly attached buffer |
| NodeWhole.Detach | moo/gtksourceview/gtksourcecontextengine.c:2239-2249 | Destroying the tree leaves an empty list, as the source asserts, and no hint |
| NodeWhole.ListIsPaths | moo/gtksourceview/gtksourcecontextengine.c:6436-6463 | The list is exactly the segments without context, in the order of the tree |
| NodeInsert.ListSorted | moo/gtksourceview/gtksourcecontextengine.c:974-1020 | So the list is sorted by offset, and no two of its segments overlap |
| SegmentState.Segments.AddInvalid | moo/gtksourceview/gtksourcecontextengine.c:1006-1020 | The sorted insertion |
| SegmentState.Segments.RemoveInvalid | moo/gtksourceview/gtksourcecontextengine.c:1032-1038 | The segment, and nothing else, leaves the list |
| SegmentState.Segments.Destroy | moo/gtksourceview/gtksourcecontextengine.c:3875-3940 | Everything below the segment leaves the list, and a hint to any of it is unset |
| SegmentState.Segments.Remove | moo/gtksourceview/gtksourcecontextengine.c:4965-5004 | The redirected hints are live in what is left |
| SegmentLinks.Link | moo/gtksourceview/gtksourcecontextengine.c:3800-3853 | A node between two neighbours, either of which may be missing |
| SegmentLinks.Unlink | moo/gtksourceview/gtksourcecontextengine.c:4965-5004 | Its neighbours and the parent's ends are joined up |
| SegmentLinks.Distribute | moo/gtksourceview/gtksourcecontextengine.c:5048-5089 | The children are shared out between the two halves |
| SegmentLinks.Merge | moo/gtksourceview/gtksourcecontextengine.c:5270-5303 | The children of the second become the last of the first |
| ContextPool.Pool.CreateChild | moo/gtksourceview/gtksourcecontextengine.c:3556-3621 | The live context for this parent, definition and start text, or a new one; while frozen, a kept context is the identical one |
| ContextPool.Pool.Release | moo/gtksourceview/gtksourcecontextengine.c:3409-3455 | Exactly one reference is given back, and the context goes with the last |
| ContextPool.Pool.Freeze | moo/gtksourceview/gtksourcecontextengine.c:3483-3505 | From then on no context alive now is destroyed |
| ContextPool.Pool.Thaw | moo/gtksourceview/gtksourcecontextengine.c:3523-3554 | None is frozen, each count is the number of uses, and what no segment uses is gone |
| ContextTable.FreezeTree | moo/gtksourceview/gtksourcecontextengine.c:3483-3505 | The recursion over a changing table visits every context below exactly once |
| ContextTable.ThawTree | moo/gtksourceview/gtksourcecontextengine.c:3523-3554 | The same where contexts are destroyed on the way |
| SegmentContexts.TreeIsRooted | moo/gtksourceview/gtksourcecontextengine.c:6436-6463 | The contexts that the segments of a tree use are closed upwards, so the pool's uses are those of a tree |
| SegmentContexts.CreatedUses | moo/gtksourceview/gtksourcecontextengine.c:3800-3853 | A new segment uses its context once more |
| SegmentUses.ErasedUses | moo/gtksourceview/gtksourcecontextengine.c:5117-5222 | Erasing gives back the references of exactly the segments in the range and takes one more for each that is split |
| SegmentUses.EraseSegments | moo/gtksourceview/gtksourcecontextengine.c:5324-5397 | So the pool counts the references of what is left |
| SegmentUses.InsertRange | moo/gtksourceview/gtksourcecontextengine.c:1386-1475 | A simple segment that is split uses its context once more, one that becomes invalid gives it back |
| SegmentUses.MergeSegments | moo/gtksourceview/gtksourcecontextengine.c:5234-5309 | Merging gives back one reference on every level, the parents first |
| SegmentUses.RemovedUses | moo/gtksourceview/gtksourcecontextengine.c:4965-5004 | Removing a segment gives back the references of it and of everything in it |
| SegmentUses.FixUses | moo/gtksourceview/gtksourcecontextengine.c:1714-1781 | Moving offsets changes no reference |
| ContextPool.Pool.Reference | moo/gtksourceview/gtksourcecontextengine.c:3258-3264 | Another reference to a context in use |
| SegmentContexts.DestroyTree | moo/gtksourceview/gtksourcecontextengine.c:3875-3940 | Destroying a tree gives back exactly its references |
| StyleTags.TagTable.GetTagForParent | moo/gtksourceview/gtksourcecontextengine.c:662-723 | The lowest tag of the style above the parent's, or a new highest one if there is none; the lists stay strictly descending |
| StyleTags.TagTable.CreateTag | moo/gtksourceview/gtksourcecontextengine.c:616-638 | Above all tags made before; no earlier choice would be made differently |
| StyleTags.TagTable.ContextTag | moo/gtksourceview/gtksourcecontextengine.c:745-754 | A context is given its tag once, after all contexts around it |
| StyleTags.TagTable.SubpatternTag | moo/gtksourceview/gtksourcecontextengine.c:725-743 | The same for sub-patterns |
| StyleTags.TagTable.ApplyTags | moo/gtksourceview/gtksourcecontextengine.c:756-830 | Parents before children: every segment with text in the range, and all around it, have their tags |
| StyleTags.Rises | moo/gtksourceview/gtksourcecontextengine.c:640-723 | In every reachable state: a context's tag ranks above that of every context around it with another style, and not below one with the same |
| StyleTags.InnermostShows | moo/gtksourceview/gtksourcecontextengine.c:756-830 | So the highest tag on a character has the style of the innermost styled context |
| StyleTags.SubShows | moo/gtksourceview/gtksourcecontextengine.c:725-743 | And a sub-pattern shows over every differently styled context around it |
| StyleTags.AppliedAt | moo/gtksourceview/gtksourcecontextengine.c:756-830 | At every character of a highlighted range the context there has what `InnermostShows` needs |
| DefinitionIterator.Iterator.Next | moo/gtksourceview/gtksourcecontextengine.c:5848-5897 | The explicit stack ends, and yields exactly and in order the recursive flattening, when the wildcard references are acyclic |
| DefinitionIterator.Unfold | moo/gtksourceview/gtksourcecontextengine.c:5848-5897 | The flattening: a wildcard reference is replaced by the flattening of the definition it names, any other child stays, in order |
| DefinitionIterator.Iterator.constructor | moo/gtksourceview/gtksourcecontextengine.c:5848-5860 | Everything is still to come |
| SessionClient.Client.XsmpSaveYourself | moo/eggsmclient/eggsmclient-xsmp.c:623-729 | What the request asks for is remembered until the next one, deferred or not; idle the client asks to interact, or saves if it is to and answers, the message following from the arguments; in the wrong state and at first it answers at once; every request is counted |
| SessionClient.Client.DoSaveYourself | moo/eggsmclient/eggsmclient-xsmp.c:731-778 | Deferred while a cancellation is not passed on; otherwise the message and the events that the request calls for |
| SessionClient.Client.XsmpInteract | moo/eggsmclient/eggsmclient-xsmp.c:942-960 | The application is asked, and owes an answer; the request stays remembered |
| SessionClient.Client.WillQuit | moo/eggsmclient/eggsmclient-xsmp.c:418-454 | The answer in every state, with a deferred cancellation passed on after it; while interacting the application saves if it agrees and the request asked for it |
| SessionClient.Client.AnswerInteract | moo/eggsmclient/eggsmclient-xsmp.c:418-454 | The messages and events of an answer while interacting, in order |
| SessionClient.Client.XsmpSaveComplete | moo/eggsmclient/eggsmclient-xsmp.c:976-989 | Back to idle |
| SessionClient.Client.XsmpShutdownCancelled | moo/eggsmclient/eggsmclient-xsmp.c:991-1043 | A cancellation is passed on at once or deferred exactly once; the only place where a SaveYourself is dropped |
| SessionClient.Client.XsmpDie | moo/eggsmclient/eggsmclient-xsmp.c:962-974 | Disconnected, with the quit signal to come |
| SessionClient.Client.IdleDoPendingEvents | moo/eggsmclient/eggsmclient-xsmp.c:545-578 | Deferred work in order: quitting alone, or the cancellation and then the waiting SaveYourself, with the message and the events that it calls for |
| SessionClient.Client.UpdatePendingEvents | moo/eggsmclient/eggsmclient-xsmp.c:580-599 | Whenever something is left to do the main loop will call back |
| SessionClient.Client.FixBrokenState | moo/eggsmclient/eggsmclient-xsmp.c:601-619 | The replies that a state without a place for the message calls for |
| SessionRuns.Shutdown | moo/eggsmclient/eggsmclient-xsmp.c:623-729 | A whole shutdown, from SaveYourself over Interact to the answer: the application is asked, and asked to save exactly if it agrees and the request was for a local save or for both |
| SessionRuns.DeferredShutdown | moo/eggsmclient/eggsmclient-xsmp.c:731-778 | The same for one that comes while the answer to a cancelled one is owed: first that answer and the cancellation, then all of it |
| SessionProtocol.SendKeeps | moo/eggsmclient/eggsmclient-xsmp.c:623-729 | Any message the protocol allows the server to send keeps both sides in step, with others in flight |
| SessionProtocol.ReceiveKeeps | moo/eggsmclient/eggsmclient-xsmp.c:623-729 | And so does the server's taking a message |
| SessionProtocol.MessageExpected | moo/eggsmclient/eggsmclient-xsmp.c:601-619 | A conformant server's next message is one the client's state has a place for |
| SessionProtocol.CancelTaken | moo/eggsmclient/eggsmclient-xsmp.c:991-1043 | A cancellation that meets a reply in flight leaves both sides in step |
| ShellWords.QuotedReads | moo/eggsmclient/eggdesktopfile.c:619-649 | In each of the three contexts the quoted word reads as exactly the word, ends no word and leaves the quoting state as it was |
| ExecExpansion.AppendQuotedWord | moo/eggsmclient/eggdesktopfile.c:619-649 | The loop writes that quotation |
| ExecExpansion.FlagsFollowShell | moo/eggsmclient/eggdesktopfile.c:746-787 | The two flags are never both set and are at every point the shell's quoting state of the output |
| ExecExpansion.ExpandExec | moo/eggsmclient/eggdesktopfile.c:746-787 | The command is what the Exec string stands for: read in the shell's quoting state, each code is replaced by something that reads as it should, every other character stands for itself, and documents are used in turn |
| ExecExpansion.CodeMeans | moo/eggsmclient/eggdesktopfile.c:651-728 | For every code, outside quotes and in quotes of either kind, what the shell reads: the name, the source, the option and the icon, a percent sign, the documents, or nothing |
| ExecExpansion.TextStays | moo/eggsmclient/eggdesktopfile.c:746-787 | Text in which every percent sign is escaped or last is copied and uses no documents |
| ExecExpansion.ExpandInTurn | moo/eggsmclient/eggdesktopfile.c:746-787 | Text is expanded piece by piece, wherever no code is cut, the documents left going from one piece to the next |
| ExecExpansion.DocumentsAreWords | moo/eggsmclient/eggdesktopfile.c:651-728 | Outside quotes a code for documents adds them as words, in order |
| ExecExpansion.ParseExec | moo/eggsmclient/eggdesktopfile.c:730-821 | The command is the expansion, or in a terminal two words the second of which the shell reads as the whole expansion |
| ExecExpansion.ExpandUses | moo/eggsmclient/eggdesktopfile.c:651-728 | A pass uses documents if and only if `parse_exec` reads a code for them, and always from the front |
| ExecExpansion.LoadCodeIsRead | moo/eggsmclient/eggdesktopfile.c:243-257 | Without backslashes the scan at load finds a code if and only if `parse_exec` reads one |
| ExecExpansion.LoadCodeIsFirst | moo/eggsmclient/eggdesktopfile.c:243-257 | The scan at load finds the first code for documents, percent signs taken in pairs |
| ExecExpansion.EscapedCode | moo/eggsmclient/eggdesktopfile.c:243-257 | With one the two part in both directions, by input |
| ExecLaunch.Launch | moo/eggsmclient/eggdesktopfile.c:1213-1290 | Every command is what the Exec key stands for with the documents that those before it have left; documents go to the commands in order, none lost or repeated, all of them when the loop ends well; how it ended and what is left, for every outcome of the launches |
| ExecLaunch.GoesOnForever | moo/eggsmclient/eggdesktopfile.c:1215-1290 | The loop goes round for ever if and only if there are documents, no code for them is read, the command can be read and every launch succeeds |
| ExecLaunch.TranslateDocumentList | moo/eggsmclient/eggdesktopfile.c:823-855 | In order, paths for a program that takes paths and URIs for one that takes URIs stay as they are, the others are converted, and exactly those that cannot be are left out |
| ExecLaunch.AcceptsUrisIf | moo/eggsmclient/eggdesktopfile.c:612-617 | A program takes URIs if and only if the first code for documents is one for URIs |
| ExecLaunch.AllTranslated | moo/eggsmclient/eggdesktopfile.c:823-855 | Where all documents can be translated, each keeps its place |
| FoldedSearch.StrCaseStr | moo/gtksourceview/gtksourceiter.c:85-138 | The first admissible occurrence in the folded text, mapped back to the least position that reaches it |
| FoldedSearch.FindInLine | moo/gtksourceview/gtksourceiter.c:345-395 | The first line of `lines_match`: where the match in the line begins and, in the line or beyond it, ends |
| FoldedLines.MatchLines | moo/gtksourceview/gtksourceiter.c:310-404 | For every folding: the first occurrence of the first line in the folded line, mapped back to the least position that reaches it, and a match if and only if the folded buffer goes on with the other lines from where that ends; so the first place where the text is found, when the folding is aligned with it |
| FoldedLines.MatchRest | moo/gtksourceview/gtksourceiter.c:345-404 | Lines after the first match if and only if the folded buffer goes on with them |
| FoldedLines.BreakupString | moo/gtksourceview/gtksourceiter.c:505-564 | The folded lines, each with its line break |
| FoldedLines.ForwardSearch | moo/gtksourceview/gtksourceiter.c:597-684 | For every folding the first line that matches decides, up to the limit; when the folding is aligned with the text that is the first place in the buffer from the start on, and nothing exactly if there is none or it ends after the limit |
| FoldedLines.FoundIsExact | moo/gtksourceview/gtksourceiter.c:310-404 | The range found folds to the text if and only if it ends on a character boundary |
| FoldedLines.FoundIsBoundary | moo/gtksourceview/gtksourceiter.c:310-404 | It does when the text has no line break or ends with one |
| FoldedLines.DecomposingIsAligned | moo/gtksourceview/gtksourceiter.c:63-83 | What the search asks of the buffer holds for every buffer when folding is to a base and marks and the text does not begin with a mark |
| FoldedLines.LastLineLoose | moo/gtksourceview/gtksourceiter.c:195-232 | An input where it does not: the last of two lines matches the beginning of a character |
| FoldedSearch.ForwardChars | moo/gtksourceview/gtksourceiter.c:253-308 | The least position whose folded length reaches the count |
| FoldedSearch.PointerFromOffset | moo/gtksourceview/gtksourceiter.c:43-61 | The least position whose folded prefix reaches the offset |
| FoldedSearch.RangeIsOccurrence | moo/gtksourceview/gtksourceiter.c:310-404 | The range is the occurrence if and only if both its ends are character boundaries |
| FoldedSearch.AdmissibleIsExact | moo/gtksourceview/gtksourceiter.c:63-83 | Where folding yields a base and marks, admissible occurrences end on boundaries |
| FoldedSearch.SharpS | moo/gtksourceview/gtksourceiter.c:85-138 | An input whose match is not exact |
| StyleSchemes.CheckParents | moo/gtksourceview/gtksourcestyleschememanager.c:275-314 | Ends, and keeps exactly the schemes whose chain of parents is complete and without a cycle; list and table agree |
| StyleSchemes.BuildReferenceChain | moo/gtksourceview/gtksourcestyleschememanager.c:227-273 | The chain, and whether it is complete, broken or a cycle |
| StyleSchemes.RemoveIsWithout | moo/gtksourceview/gtksourcestyleschememanager.c:212-225 | Removing ids from the list |
| StyleLookup.GetStyle | moo/gtksourceview/gtksourcestylescheme.c:447-481 | None exactly if no scheme of the chain defines the style; otherwise that of the first that does, each attribute in its place with the colour that scheme or the nearest above it names, or the parsed one, and unset exactly if it was or none is found; whatever is in the caches |
| StyleLookup.AnswerOnce | moo/gtksourceview/gtksourcestylescheme.c:447-481 | There is only one such answer |
| StyleLookup.KeptFamily | moo/gtksourceview/gtksourcestyleschememanager.c:275-314 | The schemes that are kept are what the lookup needs |
| StyleLookup.GetColorByName | moo/gtksourceview/gtksourcestylescheme.c:356-387 | The colour of the nearest scheme of the chain that names it, or the parsed one after the hash sign |
| StyleLookup.FixStyleColors | moo/gtksourceview/gtksourcestylescheme.c:389-423 | Each attribute is replaced by the colour that is found for it along the chain, and unset exactly if it was or none is found |
| LogoutListener.Handshake | moo/eggsmclient/eggsmclient-win32.c:178-322 | In every interleaving of the two threads: control is in exactly one place, the messages are posted in order and none is overwritten before it is dispatched, quit is emitted for exactly the messages that end the session, quit_cancelled for those that do not and quit_requested for the queries, and each query returns the answer given to it |
| LogoutListener.NeverStuck | moo/eggsmclient/eggsmclient-win32.c:119-139 | A step is possible besides a new message and an answer, unless the listener is idle or the application owes an answer |

## Left out

- Contexts that may start only once, and matches of no length: whether they match depends on the siblings before, not on the state alone; the absolute offset that the end-of-line clean-up compares with a line length (gtksourcecontextengine.c:4584) only matters for them.
- Sub-patterns inside segments, with `start_len` and `end_len`: the code keeps stale values after erasing, so there is nothing to keep; only their tags are modelled.
- Termination of `analyze_line` without consuming matches, and `disable_highlighting`, which the time limit triggers there.
- Regular expressions themselves, and the expansion of references to the start match in an end pattern: matching is an abstract relation.
- Line terminators other than the newline, multi-byte offsets, and everything inside the text buffer: marks are numbers with left or right gravity.
- `update_syntax` as one method on the heap: its loop is proved on values, and each tree operation it uses (erasing, creating, extending, merging, removing, inserting) is a method on the heap that refines the operation on values.
- The two places where the code skips a release of a context (gtksourcecontextengine.c:4007 and 5536): they are on the paths of matches of no length and of disabled highlighting.
- UpdateSyntax.AnalyzeText: with time for more than one line there is a lower bound on the lines that are analyzed but no upper one; the time limit is whatever the clock says.
- Interleaving.FaultyRun: a wrong line is followed over later calls whose regions begin after it; what a later edit in or before such a line does to it is not followed, except where the buffer is fully analyzed before each batch (EditRuns.Next).
- `refresh_region`, `highlight_requests` and the signals that ask for redrawing; the part of a segment a tag is applied to, with the option to style the inside only.
- User tags and their priorities above the highlighting tags.
- SegmentLookup.CheckedLookup: says nothing where an empty segment is at the offset; there the result depends on the hint.
- SessionClient.Client.XsmpSaveYourself: promises conservation and order for a session manager that follows the protocol; for another one only what the code does without it.
- `sm_client_xsmp_end_session`, disconnects from inside the application's save handler, the ICE and SM libraries, properties and state files.
- Timeouts and error returns of the Windows waits, and window creation.
- Starting processes, startup notification, the environment, key files, and comments in the shell's tokenizer.
- StyleLookup.GetStyle: the schemes are those that `check_parents` keeps and no lookup precedes the end of loading; parsing of scheme and language files is not modelled.
- FoldedSearch.StrCaseStr: folding is a function from a character to a non-empty text, so normalization across characters is not modelled.
- FoldedLines.ForwardSearch: which line matches and where holds for every folding; that this is the first place where the folded buffer goes on with the folded text needs a buffer in which no character folds to the first character of that other than in front (as the sharp s does for `s`); the backward search, invisible text and embedded objects are not modelled.
- The rest of the editor, the plugins, and the bindings.
