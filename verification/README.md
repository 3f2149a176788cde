# Overleaf editor core and its protocols: a verified model

This project models the collaborative-editing and history algebra of
`overleaf-editor-core`, and three small protocols of the shared libraries (the
Redis lock, the per-project data-encryption key, the batched collection scan), and
proves what they are for. `dafny verify dfyconfig.toml` checks everything.

How the parts fit together:

- A document is a sequence of characters, each with its tracking and the ids of the
  comments on it (`TextModel`). A list of scan operations means a list of atoms
  (keep, drop or add one character), and its *rendering* says where every output
  character comes from, without mentioning any document. Loops over operations are
  proved to refine the recursion over atoms.
- `TextOperations`, `TextTransform`, `TextCompose` and `CanonicalForm` are the
  operation builder, `apply`, `transform`, `compose`, and the builder's promise that
  equal effect means equal operation. `TextIds` says what lists of comment ids that
  repeat an id do to them, and `TextMerge` which document two transformed operations
  lead to, without transforming anything.
- `DiffToOperation`, `DiffProperties`, `TrackedFile`, `TrackedChanges`, `FileEdit`
  take a diff of the visible text to an operation on the full text, and the file
  through that operation.
- `OtLists`, `Rebase`, `OtClients`, `OtSystem` and `OtGuard` build lists, rebasing,
  the client, the whole client/server system and its one failure on the one-step
  diamond alone. `TextOt`, `EditOt`,
  `ProjectOt` and `ProjectSystem` prove that diamond for text, for files with
  comments, and for projects, and state exactly when it fails.
- `Ranges`, `Comments`, `DocUpdaterRanges` are comment ranges and their export.
- `FileMaps`, `FileTreeDiffs`, `FileTreeConservation`, `FileTreeBuild` are path
  conflicts and the collapsing of a window of changes, set against its replay.
- `RedisLock`, `LockWait`, `DataKey`, `BatchScan` are the protocols. Requests,
  answers and crashes are steps of a state machine, in any order.

Where the code and what its documentation promises differ:

- `Operation.transform` is documented to satisfy
  `apply(apply(S, A), B') = apply(apply(S, B), A')` (operation/index.js:156-166). It
  does not for two different moves of one file when the first removes the file or
  moves it onto another one; `ProjectOt.TransformLaw` says that these are the only
  exceptions. In the first case the transformed move has an empty pathname and
  throws (`ProjectOt.RemovedThenMoved`).
- The guard against duplicate notes (ot_client.js:159) gives `_.find` the version as
  a start index, so it refuses any note whose version is smaller than the number of
  waiting notes, and no real duplicate (`OtSystem.RefusedExactly`). A client
  converges if and only if that never happened to it (`OtGuard.ConvergesExactlyWhen`),
  it never gets past a note it lost (`OtGuard.NeverPast`), and for every version
  there is a run that loses just the note a client needs next
  (`OtGuard.EveryVersionCanBeLost`).
- `transformAfter` does not carry the other change's operations forward. It agrees
  with rebasing exactly for changes with at most one operation and for others with
  none; for all other sizes its result can fail to apply
  (`TextOt.TransformAfterAgreesExactlyWhen`, `TextOt.TransformAfterBreaks`).
- Inserts are merged if their lists of comment ids are equally long and every id of
  the first is among the second (scan_op.js:173-191). A list that repeats an id passes
  this test against one that names more comments, and the merge drops those: the
  builder keeps the effect exactly when that does not happen
  (`TextOperations.PushEffectExactly`). Transformed and composed operations always
  agree in text and tracking (`TextIds.TextAndTrackingAgree`,
  `TextIds.ComposedTextAndTracking`); in comment marks they do if no insert repeats
  an id, and every list that does repeat one has operations for which they do not
  (`TextIds.SafeToTransformExactlyWhen`, `TextIds.SafeToComposeExactlyWhen`).
- "All operations that have the same effect are equal" (text_operation.js:176-180)
  holds for operations whose lists of comment ids are neither empty nor repeat an id
  (`CanonicalForm.SameEffectMeansEqual`), and every other list breaks it
  (`CanonicalForm.SafeToCompareExactlyWhen`).
- `checkPathnamesDoNotConflict` reports an empty pathname for every conflict
  (file_map.js:367 takes `substr(0, -1)`).
- `extendLock` does not look at the time an extension took. Confirmed in less than
  the TTL it means that the caller is inside its lease, alone
  (`RedisLock.ExtensionConfirmed`); for every longer time there is a run in which
  another caller holds the lock (`RedisLock.ExtensionCanBeConfirmedTooLate`).
- A scan for the key-encryption key can find none of them although one fits, if a
  rotation overtakes it (`DataKey.RotationCanHideTheKey`); without rotation it
  cannot (`DataKey.NoKekMatchedIsTrue`).
- `batchedUpdate` never ends with a time span under a second, unless start and end
  share a second (`BatchScan.EndsExactlyWhen`); and from the default start it skips
  the all-zero object id (`BatchScan.DefaultStartTakesAll`).

## Model

| member | source | states |
|---|---|---|
| TextModel.ApplyIsRender | libraries/overleaf-editor-core/lib/operation/text_operation.js:292-346 | every output character of an application is the one the rendering names, on every document |
| TextModel.SameEffectSameResult | libraries/overleaf-editor-core/lib/operation/text_operation.js:174-187 | operations with the same effect give the same document whatever they are applied to |
| TextModel.InsertRemoveCommute | libraries/overleaf-editor-core/lib/operation/text_operation.js:174-187 | inserting before or after a removal at one place makes no difference |
| TextOperations.PushEffectExactly | libraries/overleaf-editor-core/lib/operation/text_operation.js:124-221 | merging and reordering in the builder keep what the operation does if and only if no insert is merged into one that names other comments |
| TextOperations.PushDistinct | libraries/overleaf-editor-core/lib/operation/scan_op.js:173-205 | on operations whose inserts repeat no id the builder never does that, and its result repeats none |
| TextOperations.PushCounts | libraries/overleaf-editor-core/lib/operation/text_operation.js:124-221 | base and target length advance by exactly what retain, insert and remove add |
| TextOperations.PushCanonical | libraries/overleaf-editor-core/lib/operation/text_operation.js:124-221 | no builder call leaves mergeable neighbours, an insert after a remove, or a zero-length operation |
| TextOperations.TextOperation.Retain | libraries/overleaf-editor-core/lib/operation/text_operation.js:124-151 | the mutable operation does what it did, then keeps n characters with the directive; the lengths stay right |
| TextOperations.TextOperation.Insert | libraries/overleaf-editor-core/lib/operation/text_operation.js:159-192 | the mutable operation does what it did, then adds the text, if and only if it is not merged into an insert that names other comments; the lengths stay right |
| TextOperations.TextOperation.Remove | libraries/overleaf-editor-core/lib/operation/text_operation.js:199-221 | the same for a removal, given as a length of either sign |
| TextOperations.TextOperation.Apply | libraries/overleaf-editor-core/lib/operation/text_operation.js:292-346 | fails exactly on a length mismatch or an over-long result; otherwise the cursor loop computes the application |
| CanonicalForm.SameEffectMeansEqual | libraries/overleaf-editor-core/lib/operation/text_operation.js:174-187 | built operations whose id lists are neither empty nor repetitive are equal if and only if they give the same result on every document |
| CanonicalForm.SameSetDiffers | libraries/overleaf-editor-core/lib/operation/text_operation.js:159-187 | the family of pairs that do the same to every document and still differ: absent and empty lists, and lists that repeat ids |
| CanonicalForm.ConfusedListsAreEqual | libraries/overleaf-editor-core/lib/operation/scan_op.js:145-167 | the family of pairs that are equal and do not do the same to every document |
| CanonicalForm.SafeToCompareExactlyWhen | libraries/overleaf-editor-core/lib/operation/text_operation.js:174-187 | a list of ids keeps the promise if and only if it is not empty and repeats no id |
| TextTransform.TransformRefines | libraries/overleaf-editor-core/lib/operation/text_operation.js:652-791 | on inserts that repeat no comment id, the loop that uses up two operations in pieces has the effect of the character-by-character transform |
| TextTransform.TransformDiamond | libraries/overleaf-editor-core/lib/operation/text_operation.js:643-791 | for any two operations on one document whose inserts repeat no comment id: A then B' equals B then A', in text, tracking and comment marks; both results are canonical and fit |
| TextTransform.Transform | libraries/overleaf-editor-core/lib/operation/text_operation.js:652-791 | throws exactly on different base lengths; its two other errors are unreachable; both new operations are the transformed ones |
| TextMerge.TransformMerges | libraries/overleaf-editor-core/lib/operation/text_operation.js:643-791 | the document that both ways round lead to, said place by place without transforming: first the text A inserts there, then the text B inserts, then the base character if both keep it, with the tracking A gives it, or else B, or else its own; inserts repeat no comment id |
| TextMerge.TransformMergesText | libraries/overleaf-editor-core/lib/operation/text_operation.js:643-791 | the same in text and tracking whatever ids the inserts carry |
| TextCompose.ComposeRefines | libraries/overleaf-editor-core/lib/operation/text_operation.js:496-641 | on inserts that repeat no comment id, the composing loop has the effect of chaining the two operations character by character |
| TextCompose.ComposeApplies | libraries/overleaf-editor-core/lib/operation/text_operation.js:489-641 | on inserts that repeat no comment id, applying the composed operation is applying one operation after the other, on every document, tracking and comment marks included |
| TextIds.TextAndTrackingAgree | libraries/overleaf-editor-core/lib/operation/text_operation.js:643-791 | for any two operations on one document, whatever ids they carry: A then B' equals B then A' in text and tracking; both results are canonical and fit |
| TextIds.ComposedTextAndTracking | libraries/overleaf-editor-core/lib/operation/text_operation.js:489-641 | whatever ids inserts carry, the composed operation gives the text and tracking of one operation after the other |
| TextIds.ConfusedListsDiverge | libraries/overleaf-editor-core/lib/operation/text_operation.js:652-791 | for any two lists the comparison confuses, two inserts around a removed character end up with different comments on the two sides |
| TextIds.SafeToTransformExactlyWhen | libraries/overleaf-editor-core/lib/operation/text_operation.js:643-791 | a list of ids can be used in all operations without losing the law for comment marks if and only if it repeats no id |
| TextIds.SafeToComposeExactlyWhen | libraries/overleaf-editor-core/lib/operation/text_operation.js:489-641 | the same for composing |
| TrackedFile.TrackingAtInOrder | libraries/overleaf-editor-core/lib/file_data/tracked_change_list.js:55-62 | in a sorted, disjoint list the tracking of a character is that of the one change that covers it |
| TrackedFile.FilteredContent | libraries/overleaf-editor-core/lib/file_data/string_file_data.js:91-110 | the cut-and-join loop returns exactly the characters outside tracked deletes, in order |
| DiffToOperation.DiffsToTextOperation | libraries/overleaf-editor-core/lib/diff_as_text_operation.js:69-169 | for any well-formed file and matching diff the out-of-sync error is unreachable, the operation covers the whole file, both loops end, and every character meets the fate the diff and the tracking give it |
| DiffToOperation.WalkRange | libraries/overleaf-editor-core/lib/diff_as_text_operation.js:107-146 | one pass of the inner loop: the current tracked delete starts at or after the base length, the current tracked insert ends after it, and the reading goes on where it was |
| DiffToOperation.WalkSegment | libraries/overleaf-editor-core/lib/diff_as_text_operation.js:107-152 | one removed or unchanged piece is read completely, stepping over tracked deletes |
| DiffToOperation.RetainRest | libraries/overleaf-editor-core/lib/diff_as_text_operation.js:155-168 | after the diff only tracked deletes that start at the base length can be left |
| DiffProperties.DiffReachesNewText | libraries/overleaf-editor-core/lib/diff_as_text_operation.js:44-57 | the result's visible text is the unchanged and added pieces, with or without tracking |
| DiffProperties.DiffDecidesEachCharacter | libraries/overleaf-editor-core/lib/diff_as_text_operation.js:53-58 | tracked deletes come through untouched; with tracking exactly the removed characters inside tracked inserts vanish and every other removed one becomes a tracked delete by the author; without tracking exactly the removed ones vanish |
| DiffProperties.DiffRecordsInsertions | libraries/overleaf-editor-core/lib/diff_as_text_operation.js:69-102 | what is inserted is the added pieces in order, on no comment; with tracking every character of it is a tracked insert by the author, without tracking none is tracked |
| DiffProperties.DiffPlacesInsertions | libraries/overleaf-editor-core/lib/diff_as_text_operation.js:97-152 | every added piece lands right after the last visible character that the diff has before it, ahead of tracked deletes that follow |
| DiffProperties.DiffInsertsOutsideDeletes | libraries/overleaf-editor-core/lib/diff_as_text_operation.js:49-57 | two neighbours inside tracked deletes stay neighbours: nothing is inserted between them |
| FileEdit.Edit | libraries/overleaf-editor-core/lib/file_data/string_file_data.js:133-136 | content and tracked changes follow the operation together, and the file stays well-formed |
| FileEdit.ReplaceVisibleContent | libraries/overleaf-editor-core/lib/diff_as_text_operation.js:35-58 | end to end: the edited file is well-formed, its visible text is what the external source sent, its new characters are the added text with the recording the author asks for, and every old character has met the fate the diff decides |
| TrackedChanges.ApplyInsert | libraries/overleaf-editor-core/lib/file_data/tracked_change_list.js:168-219 | a tracked insert tags its own text, an untracked one splits what it lands in; everything after moves |
| TrackedChanges.ApplyDelete | libraries/overleaf-editor-core/lib/file_data/tracked_change_list.js:239-268 | tags of deleted positions vanish, later ones move up |
| TrackedChanges.ApplyRetain | libraries/overleaf-editor-core/lib/file_data/tracked_change_list.js:289-349 | a retain with a directive retags or clears exactly its range; without one nothing changes |
| TrackedChanges.MergeRanges | libraries/overleaf-editor-core/lib/file_data/tracked_change_list.js:121-147 | never throws on disjoint ranges; the result is sorted, disjoint, with nothing left to merge and the same tags |
| TrackedChanges.ApplyTextOperation | libraries/overleaf-editor-core/lib/file_data/tracked_change_list.js:355-372 | the list tags every character of the new document as the operation says, and ends up merged |
| OtLists.DiamondLists | libraries/overleaf-editor-core/lib/operation/index.js:210-225 | the one-step diamond is all it takes for the diamond of two lists of any length |
| OtLists.TransformSingle | libraries/overleaf-editor-core/lib/operation/index.js:210-225 | two lists of one operation each are one call of `transform`, in that order |
| OtLists.TransformConcatRight | libraries/overleaf-editor-core/lib/operation/index.js:210-225 | going past a longer list is going past its two parts in turn |
| OtLists.TransformMultiple | libraries/overleaf-editor-core/lib/operation/index.js:210-225 | the double loop rewrites both arrays in place into the transformed lists |
| Rebase.RebaseAllFlat | libraries/overleaf-editor-core/lib/rebase.js:33-39 | change boundaries do not matter: rebasing is one transform of the two flattened lists |
| Rebase.RebaseDiamond | libraries/overleaf-editor-core/lib/rebase.js:8-51 | theirs and then the rebased, pruned ours reaches the state of ours and then the transformed theirs, for any numbers of changes and operations |
| Rebase.RebaseChanges | libraries/overleaf-editor-core/lib/rebase.js:33-51 | both sides are rewritten in place; the result is those of our own change objects, in order, whose own rebased list is not emptied by pruning, and every object holds its own list |
| Rebase.TransformAfter | libraries/overleaf-editor-core/lib/change.js:317-330 | this change's operations are rewritten in place, the other's are not |
| Rebase.TransformAfterAgrees | libraries/overleaf-editor-core/lib/change.js:317-330 | with at most one operation, or no other ones, it agrees with rebasing before pruning |
| TextOt.TransformAfterBreaks | libraries/overleaf-editor-core/lib/change.js:317-330 | for every larger size, text operations whose `transformAfter` result does not even apply, while the rebased one does |
| TextOt.TransformAfterAgreesExactlyWhen | libraries/overleaf-editor-core/lib/change.js:317-330 | for which numbers of operations it always does what rebasing does |
| OtClients.OtClient.HandleLocalOperation | libraries/overleaf-editor-core/lib/ot_client.js:77-105 | ready clients send at once, waiting ones queue |
| OtClients.OtClient.HandleAckReady | libraries/overleaf-editor-core/lib/ot_client.js:168-186 | which of the two errors is thrown when, and how the pending operations become outstanding |
| OtClients.OtClient.HandleRemoteChangeReady | libraries/overleaf-editor-core/lib/ot_client.js:188-199 | outstanding and pending operations and the change are transformed in that order, then the change reaches the editor |
| OtClients.OtClient.AdvanceIfReady | libraries/overleaf-editor-core/lib/ot_client.js:135-155 | the recursion takes acks and notes as long as one is next, and ends |
| OtClients.OtClient.OnAckMessage | libraries/overleaf-editor-core/lib/ot_client.js:201-212 | the ack handler on the client's fields is the step of the system model |
| OtClients.OtClient.OnChangeMessage | libraries/overleaf-editor-core/lib/ot_client.js:157-166 | a note the guards refuse is lost and the client is as before; any other is buffered and then the client advances |
| OtSystem.AdvanceKeeps | libraries/overleaf-editor-core/lib/ot_client.js:135-155 | advancing throws nothing, keeps the invariant and leaves nothing that is next in line |
| OtSystem.NextKeeps | libraries/overleaf-editor-core/lib/ot_client.js:83-224 | every step of clients, server and network keeps the invariant, and no handler throws anything but the duplicate guard |
| OtSystem.EditorsFollowTheLog | libraries/overleaf-editor-core/lib/ot_client.js:83-224 | in every reachable state each editor shows the log up to its version, then its outstanding, then its pending operations |
| OtSystem.QuietClientsConverge | libraries/overleaf-editor-core/lib/ot_client.js:83-224 | a client with nothing under way that has received everything is at the end of the log if and only if it refused no note; it is then ready and equal to the server |
| OtSystem.RefusedExactly | libraries/overleaf-editor-core/lib/ot_client.js:157-166 | in every reachable state a note is refused if and only if its version is smaller than the number of waiting notes |
| OtGuard.RefusedWhenTripped | libraries/overleaf-editor-core/lib/ot_client.js:157-161 | a client has lost a note if and only if in its run one came whose version was smaller than the number of waiting notes |
| OtGuard.ConvergesExactlyWhen | libraries/overleaf-editor-core/lib/ot_client.js:83-224 | a client with nothing under way that has received everything is equal to the server if that never happened in the run, and stuck behind the log if it did |
| OtGuard.NeverPast | libraries/overleaf-editor-core/lib/ot_client.js:135-166 | a client that lost a note stays behind it, whatever steps follow |
| OtGuard.EveryVersionCanBeLost | libraries/overleaf-editor-core/lib/ot_client.js:157-161 | for any applicable operations and every version: a run of joins, edits, requests and deliveries in which the note a client needs next is refused and the client ends up stuck |
| TextOt.TextDiamond | libraries/overleaf-editor-core/lib/operation/text_operation.js:643-791 | the one-step diamond holds for text operations whose inserts repeat no comment id, and their results repeat none |
| TextOt.TextEditorsConverge | libraries/overleaf-editor-core/lib/ot_client.js:83-224 | text editors that have received everything and refused nothing are equal, in any interleaving, comment marks included |
| TextOt.LateRequestMerges | libraries/overleaf-editor-core/lib/change_request.js:13-24 | a request that missed an entry brings the log to the two operations merged, the text of the late one first at one place |
| TextOt.RemoteNoteMerges | libraries/overleaf-editor-core/lib/ot_client.js:188-199 | a note that meets an operation under way brings the editor to the two merged, the text of its own first |
| TextOt.MarklessDiamond | libraries/overleaf-editor-core/lib/operation/text_operation.js:643-791 | the one-step diamond in text and tracking, for all text operations |
| TextOt.MarklessEditorsConverge | libraries/overleaf-editor-core/lib/ot_client.js:83-224 | the same convergence in text and tracking, whatever ids inserts carry |
| TextOt.TextRebase | libraries/overleaf-editor-core/lib/rebase.js:8-51 | rebasing lists of text changes whose inserts repeat no comment id reaches one state |
| EditOt.MarkThrough | libraries/overleaf-editor-core/lib/operation/edit_operation_transformer.js:33-45 | marking a comment and then typing is typing and then marking what the comment has become |
| EditOt.EditDiamond | libraries/overleaf-editor-core/lib/operation/edit_operation_transformer.js:18-124 | every pair of text edits whose inserts repeat no id, added, deleted and resolved comments satisfies the diamond, in text, tracking, marks and comment states |
| EditOt.EditsMerge | libraries/overleaf-editor-core/lib/operation/edit_operation_transformer.js:18-124 | the file that two edits lead to, said without transforming: the merged text; a comment either deletes is gone; of two that add it the second counts, but a state the other one sets wins; of two states set, resolved needs both; an added comment has its own marks, carried through the other one's text; no other comment leaves a mark |
| EditOt.MoveAddedComment | libraries/overleaf-editor-core/lib/operation/edit_operation_transformer.js:33-45 | the transformed comment's ranges are canonical and show exactly the moved marks |
| ProjectOt.TransformLaw | libraries/overleaf-editor-core/lib/operation/index.js:155-215 | for any project and two operations that apply to it, the documented law holds if and only if they are not diverging moves; when it does, both sides throw exactly if the two bring in conflicting pathnames, and otherwise lead to the merged project, said over maps without transforming: the second of two added files or two metadata counts, an added file beats an edit and takes metadata on, edits and metadata go with a file that moves, the second move wins |
| ProjectOt.AddAddLaw | libraries/overleaf-editor-core/lib/operation/index.js:257-263 | two added files: both are there, or at one pathname the second, or both sides throw because one pathname is a directory of the other |
| ProjectOt.ConvergentLaw | libraries/overleaf-editor-core/lib/operation/index.js:364-367 | two files moved to one place: the second is there and the first is gone |
| ProjectOt.FollowLaw | libraries/overleaf-editor-core/lib/operation/index.js:369-377 | the second file moves to where the first was: it goes on to where the first goes, and the first is gone |
| ProjectOt.MoveMoveLaw | libraries/overleaf-editor-core/lib/operation/index.js:305-387 | all relations between the four pathnames of two moves |
| ProjectOt.AddMoveLaw | libraries/overleaf-editor-core/lib/operation/index.js:265-285 | an added file and a moved file: the added one goes along with a move of the one it replaces, outlives its removal, and beats one moved onto it |
| ProjectOt.MoveEditLaw | libraries/overleaf-editor-core/lib/operation/index.js:389-407 | an edit follows the file that moves and yields to a removal or an overwrite |
| ProjectOt.MoveSetLaw | libraries/overleaf-editor-core/lib/operation/index.js:409-425 | metadata follows the file that moves and yields to an overwrite |
| ProjectOt.DivergentLaw | libraries/overleaf-editor-core/lib/operation/index.js:359-362 | two places for one file: the law holds exactly if the first place is a pathname and free, and what either side leads to when it does not hold |
| ProjectOt.RemovedThenMoved | libraries/overleaf-editor-core/lib/operation/index.js:359-362 | removing on one side and moving on the other: the remover throws, the mover keeps the file |
| ProjectOt.InPlaceDiamond | libraries/overleaf-editor-core/lib/operation/index.js:155-215 | while no file is added, moved or removed, whole projects obey the diamond |
| ProjectSystem.ProjectEditorsConverge | libraries/overleaf-editor-core/lib/ot_client.js:83-224 | clients editing text, tracking, comments and metadata of many files converge, in any interleaving |
| Comments.CanonicalUnique | libraries/overleaf-editor-core/lib/comment.js:163-191 | a marking has exactly one sorted, non-empty, non-touching list of ranges |
| Comments.MergeRanges | libraries/overleaf-editor-core/lib/comment.js:167-191 | throws exactly when two non-empty ranges overlap, whatever their order; otherwise canonical with the same marks |
| Comments.NewComment | libraries/overleaf-editor-core/lib/comment.js:28-35 | the constructor refuses exactly overlapping ranges and keeps the marks |
| Comments.ApplyInsert | libraries/overleaf-editor-core/lib/comment.js:41-93 | inserted text is marked exactly when the insert extends the comment; no construction on the way throws |
| Comments.ApplyDelete | libraries/overleaf-editor-core/lib/comment.js:100-114 | deleted positions vanish, later ones move up; no construction on the way throws |
| Comments.InsertAndRemoveCommute | libraries/overleaf-editor-core/lib/comment.js:41-114 | insert-then-remove and remove-then-insert at one cursor give identical ranges |
| Comments.ApplyTextOperation | libraries/overleaf-editor-core/lib/comment.js:122-141 | surviving characters keep their mark, removed ones vanish, inserted ones are marked exactly when the insert carries the comment's id |
| DocUpdaterRanges.ExportChanges | libraries/overleaf-editor-core/lib/doc_updater_compatible_ranges.js:34-57 | each change sits after as many visible characters as precede it and carries its own text and author |
| DocUpdaterRanges.ExportLosesNothing | libraries/overleaf-editor-core/lib/doc_updater_compatible_ranges.js:34-57 | re-inserting the deleted texts, last one first, rebuilds the full content, and every inserted text is found at its position |
| DocUpdaterRanges.FilterDeletions | libraries/overleaf-editor-core/lib/doc_updater_compatible_ranges.js:68-70 | the filtered ranges are in order and hide exactly the hidden characters |
| DocUpdaterRanges.CommentPosition | libraries/overleaf-editor-core/lib/doc_updater_compatible_ranges.js:92-106 | the position is the number of visible characters before the comment, also when a tracked delete overlaps its start |
| DocUpdaterRanges.CommentContent | libraries/overleaf-editor-core/lib/doc_updater_compatible_ranges.js:108-130 | the text is the visible text of the comment's span, with tracked deletes cut out at either end and inside |
| DocUpdaterRanges.CommentIsFound | libraries/overleaf-editor-core/lib/doc_updater_compatible_ranges.js:68-140 | the visible text from the exported position on is the exported text |
| DocUpdaterRanges.ExportComment | libraries/overleaf-editor-core/lib/doc_updater_compatible_ranges.js:68-140 | one exported comment, with the span of all its ranges |
| DocUpdaterRanges.Export | libraries/overleaf-editor-core/lib/doc_updater_compatible_ranges.js:16-150 | every change and every comment of the file is exported, in order, each placed as above |
| FileMaps.NeighboursSuffice | libraries/overleaf-editor-core/lib/file_map.js:358-371 | in a sorted list some name is a prefix of another exactly when some name is a prefix of its neighbour |
| FileMaps.CheckPathnamesDoNotConflict | libraries/overleaf-editor-core/lib/file_map.js:353-371 | passes exactly when all pathnames are good and none is a strict path prefix of another, and which error is thrown otherwise |
| FileMaps.MoveKeepsPrefixFree | libraries/overleaf-editor-core/lib/file_map.js:178-193 | a move keeps the map free of conflicts, also under or over its own old path |
| FileMaps.RunKeepsPrefixFree | libraries/overleaf-editor-core/lib/file_map.js:147-193 | no sequence of adds, removes and moves ever makes one pathname a directory of another |
| FileMaps.FileMap.WouldConflictWith | libraries/overleaf-editor-core/lib/file_map.js:228-263 | the loop with its two spelled-out prefix tests decides conflicts with all but the ignored pathname |
| FileMaps.FileMap.AddFile | libraries/overleaf-editor-core/lib/file_map.js:147-154 | which error or which new map, and the invariant |
| FileMaps.FileMap.RemoveFile | libraries/overleaf-editor-core/lib/file_map.js:161-169 | which error or which new map, and the invariant |
| FileMaps.FileMap.MoveFile | libraries/overleaf-editor-core/lib/file_map.js:178-193 | which error or which new map, in the source's order of checks, and the invariant |
| FileTreeDiffs.StepAgrees | libraries/overleaf-editor-core/lib/file_tree_diff.js:117-167 | one operation keeps the fold and the replay in agreement |
| FileTreeDiffs.FoldAgreesWithReplay | libraries/overleaf-editor-core/lib/file_tree_diff.js:26-72 | for any seeded replayable window the live entries are keyed by exactly the replayed pathnames; origin, chain, edited, first edit and file describe the very file at that pathname, and the removed entries the files that left, in order |
| FileTreeConservation.EveryFileToldOnce | libraries/overleaf-editor-core/lib/file_tree_diff.js:85-167 | live plus removed equals initial plus added, and every file is told exactly once |
| FileTreeConservation.LiveChains | libraries/overleaf-editor-core/lib/file_tree_diff.js:17-38 | for any changes, seeded or not, replayable or not: a chain ends with the pathname of its entry and begins with its origin; an entry has an origin or an added file; a first edit lies in the chain; a deleted entry is on the removed list |
| FileTreeConservation.RemovalsAreDated | libraries/overleaf-editor-core/lib/file_tree_diff.js:110-115 | every removed entry carries the index of the very change that removed it, and its chain ends where it was removed from |
| FileTreeBuild.FileTreeDiff.RemoveLiveEntry | libraries/overleaf-editor-core/lib/file_tree_diff.js:110-115 | the entry is marked in place, shared between the map and the removed list, and no other live entry changes |
| FileTreeBuild.FileTreeDiff.MoveFile | libraries/overleaf-editor-core/lib/file_tree_diff.js:137-165 | the entry object itself moves, with a longer chain, after the target was removed |
| FileTreeBuild.BuildFileTreeDiff | libraries/overleaf-editor-core/lib/file_tree_diff.js:75-171 | the double loop over mutable, shared entries ends up holding exactly the fold, seeded or not |
| FileTreeBuild.BuiltDiffTellsReplay | libraries/overleaf-editor-core/lib/file_tree_diff.js:75-171 | what the built objects say about any pathname of a replayable window |
| FileTreeBuild.BuiltChains | libraries/overleaf-editor-core/lib/file_tree_diff.js:17-38 | the chains of the entry objects that are built, for any changes |
| RedisLock.NextKeeps | libraries/redis-wrapper/RedisLocker.js:108-145 | every step of callers, Redis and network keeps the invariant |
| RedisLock.AtMostOneInside | libraries/redis-wrapper/RedisLocker.js:108-269 | in every interleaving with expiry, crashes and lost or late requests at most one caller is inside its lease |
| RedisLock.SureMeansInside | libraries/redis-wrapper/RedisLocker.js:108-145 | a caller that trusts its own clock is inside its lease |
| RedisLock.ToldInTime | libraries/redis-wrapper/RedisLocker.js:108-145 | a caller told it has the lock is the only one inside, with the TTL less 5 s, hence at least 25 s, left |
| RedisLock.OthersCannotTouch | libraries/redis-wrapper/RedisLocker.js:14-19 | no step of anyone else, however late, touches the lock of a caller inside its lease |
| RedisLock.SetTakesFreeKey | libraries/redis-wrapper/RedisLocker.js:108-120 | a SET gets the lock, for one TTL, exactly if the key is free or has expired |
| RedisLock.ExtensionServed | libraries/redis-wrapper/RedisLocker.js:18-19 | an extension that finds the caller's value gives the key a whole TTL from then on and succeeds; any other leaves the key alone and fails |
| RedisLock.ReleaseServed | libraries/redis-wrapper/RedisLocker.js:14-15 | a release that finds the caller's value frees the key, and the next SET gets the lock; any other leaves the key alone |
| RedisLock.GivingBackSends | libraries/redis-wrapper/RedisLocker.js:126-134 | a caller that lets go, or is told OK after more than five seconds, sends a release and does not go on with the lock, and the key is still its own until its lease is over |
| RedisLock.LockChangesHands | libraries/redis-wrapper/RedisLocker.js:108-145 | if that release is served within the lease, a call made right then has the lock, alone, for a whole TTL |
| RedisLock.LockComesFree | libraries/redis-wrapper/RedisLocker.js:115-120 | after a crash the key is gone within one TTL |
| RedisLock.ExtensionConfirmed | libraries/redis-wrapper/RedisLocker.js:215-244 | an extension confirmed in less than the TTL means that the caller is inside its lease, alone, for at least the rest of the TTL |
| RedisLock.ExtensionCanBeConfirmedTooLate | libraries/redis-wrapper/RedisLocker.js:215-244 | for every TTL and every time from the TTL on: a run in which an extension is confirmed after that time, its caller is outside its lease and another caller is inside |
| LockWait.AtMostFourteenTries | libraries/redis-wrapper/RedisLocker.js:151-180 | the doubling waits allow at most fourteen tries in ten seconds |
| LockWait.GetLock | libraries/redis-wrapper/RedisLocker.js:151-180 | the answer of the first try that is not busy among those that start in time; a timeout if there is none |
| DataKey.Bucket.GetExisting | libraries/object-persistor/src/PerProjectEncryptedS3Persistor.js:235-279 | undisturbed: the stored key if some listed KEK fits, re-encrypted under the current one on rotation, and which error otherwise |
| DataKey.Bucket.GetOrGenerate | libraries/object-persistor/src/PerProjectEncryptedS3Persistor.js:286-306 | also against a rival first use: the key returned is the one in the bucket |
| DataKey.NextKeeps | libraries/object-persistor/src/PerProjectEncryptedS3Persistor.js:211-306 | every step keeps the invariant and the key in the bucket |
| DataKey.AllReturnTheSameKey | libraries/object-persistor/src/PerProjectEncryptedS3Persistor.js:211-306 | all calls that return, in any interleaving of first uses and rotations, return one key, stored under a listed KEK |
| DataKey.KeyIsForever | libraries/object-persistor/src/PerProjectEncryptedS3Persistor.js:211-227 | once there is a key no later run changes it, not even by creates and rotations that arrive late |
| DataKey.RaceIsHidden | libraries/object-persistor/src/PerProjectEncryptedS3Persistor.js:286-306 | a call for an existing or new key fails only if a request fails in some other way or no KEK fits, never because another call was first |
| DataKey.LoserGetsTheKey | libraries/object-persistor/src/PerProjectEncryptedS3Persistor.js:290-302 | a call whose create comes too late reads again and, left alone, returns the key that beat it |
| DataKey.NoKekMatchedIsTrue | libraries/object-persistor/src/PerProjectEncryptedS3Persistor.js:235-256 | without rotation a call finds no KEK only if the key is under none of its own |
| DataKey.RotationCanHideTheKey | libraries/object-persistor/src/PerProjectEncryptedS3Persistor.js:235-276 | with rotation: a run in which a call finds no KEK although one of its own fits |
| BatchScan.TurnSplits | libraries/mongo-utils/batchedUpdate.js:92-188 | a batch and what is left after it are exactly what there was |
| BatchScan.BatchedUpdate | libraries/mongo-utils/batchedUpdate.js:246-281 | the loop ends, and the batches are exactly the ids in the open-closed range, in order and each once, for any batch size; every batch is full or takes its whole window |
| BatchScan.EndsExactlyWhen | libraries/mongo-utils/batchedUpdate.js:174-188 | the loop ends if and only if the span is at least a second or start and end share a second |
| BatchScan.DefaultStartTakesAll | libraries/mongo-utils/batchedUpdate.js:194-205 | the default start takes the whole collection exactly if the oldest id is not all zero |

## Left out

- Timestamps of tracking props: two props are the same if type and author are, which is what the source merges by; which timestamp a merge keeps is not modelled, so no result, and no equality of documents, speaks of timestamps.
- TextTransform.TransformDiamond: only for operations whose inserts repeat no comment id; `TextIds.SafeToTransformExactlyWhen` shows that this is needed, and `TextIds.TextAndTrackingAgree` is the part that holds without it. The same goes for TextTransform.TransformRefines and all that is built on them.
- TextCompose.ComposeApplies: the same, with `TextIds.SafeToComposeExactlyWhen` and `TextIds.ComposedTextAndTracking`.
- TextOt.TextDiamond: the same; `TextOt.MarklessDiamond` and `TextOt.MarklessEditorsConverge` cover text and tracking for all operations.
- Text is a sequence of characters; surrogate pairs and the UTF-16 order of `sort` are not modelled.
- `diff-match-patch`, its timeout and clean-up: any diff whose unchanged and removed pieces make up the visible text is taken. The error for an unknown diff type cannot arise from such a diff.
- Inverting and undo of text operations, `applyToLength`, JSON forms of operations.
- TextOperations.TextOperation.Retain: negative lengths, which the source refuses with an error, are excluded by the type.
- EditOt.EditDiamond: inserts repeat no comment id, as above; an added comment is given by its marks, as many as the document has characters; ranges past the end of the document are not modelled.
- ProjectSystem.ProjectEditorsConverge: inserts repeat no comment id, as above.
- ProjectOt.TransformLaw: both operations apply to the project without an error; pairs of which one is skipped as recoverable are not part of the law. Versions of old-style docs that move with a file are left out.
- The server is one log that transforms a late request past what it missed; untransformable requests, loading, sockets, disconnects and `waitForVersion` are left out, and each version is delivered once.
- `onMoveCollision` and the order in which file-tree entries are reported.
- FileTreeDiffs.FoldAgreesWithReplay: only for windows seeded with the starting pathnames whose edits name files that are there; for others the source guesses entries, and only `FileTreeBuild.BuildFileTreeDiff` and `FileTreeConservation.LiveChains` cover them.
- Whether a single pathname is clean is a parameter.
- The answer that `releaseLock` gives its caller; what a release does to the key is modelled.
- Redis and S3 clients, metrics, logging, host names and random bytes: lock values are distinct numbers, scripts and requests are atomic. One clock runs for all callers of the lock.
- Deleting a data key, key derivation and streaming are left out of the key protocol.
- Object ids are seconds and a low part, without the 32-bit limit of the seconds; descending scans, NaN options and concurrent writers are left out.
- BatchScan.BatchedUpdate: requires a time span that lets the loop end; `BatchScan.EndsExactlyWhen` shows that this is exactly needed.
