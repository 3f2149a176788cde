/**
  Editing a file with tracked changes from end to end (overleaf-editor-core:
  text_operation.js lines 292-346, string_file_data.js lines 91-135 and
  diff_as_text_operation.js lines 35-42).
*/
module FileEdit {
  import opened Common
  import opened TextModel
  import opened TextOperations
  import opened TrackedFile
  import opened DiffToOperation
  import opened DiffProperties
  import TrackedChanges

  /** The file as a document without comments. */
  function DocOf(file: File): Doc {
    seq(|file.content|, i requires 0 <= i < |file.content| =>
      DocChar(file.content[i], TracksOf(file)[i], {}))
  }

  function TextOf(doc: Doc): string {
    seq(|doc|, i requires 0 <= i < |doc| => doc[i].c)
  }

  /** A well-formed file's list of changes tags its characters as the per-character view says. */
  lemma FileShowsTracking(file: File)
    requires WellFormed(file)
    ensures TrackedChanges.ShowsTracking(file.changes, DocOf(file))
  {
    var changes, doc := file.changes, DocOf(file);
    assert forall i :: 0 <= i < |doc| ==> doc[i].tracking == TracksOf(file)[i] == TrackingAt(changes, i);
    forall i, t ensures TrackedChanges.Tagged(changes, i, t) <==> 0 <= i < |doc| && doc[i].tracking == Some(t) {
      if TrackedChanges.Tagged(changes, i, t) {
        var k :| 0 <= k < |changes| && changes[k].range.Covers(i) && changes[k].tracking == t;
        TrackingAtInOrder(changes, |file.content|, k, i);
      }
      if 0 <= i < |doc| && doc[i].tracking == Some(t) {
        var k := TrackingAtFound(changes, i);
        assert changes[k].range.Covers(i) && changes[k].tracking == t;
      }
    }
  }

  /** And a list that came out of `applyTextOperation` makes a well-formed file of the new text. */
  lemma ShownFileIsWellFormed(changes: seq<TrackedChange>, doc: Doc)
    requires TrackedChanges.Compact(changes) && TrackedChanges.ShowsTracking(changes, doc)
    ensures var file := File(TextOf(doc), changes);
      WellFormed(file) && Shows(doc, file.content, TracksOf(file))
  {
    var file := File(TextOf(doc), changes);
    forall k | 0 <= k < |changes| ensures 0 < changes[k].range.length && changes[k].range.End() <= |doc| {
      var last := changes[k].range.End() - 1;
      assert TrackedChanges.Tagged(changes, last, changes[k].tracking);
    }
    forall j, k | 0 <= j < k < |changes| ensures changes[j].range.End() <= changes[k].range.Start() {
      TrackedChanges.SortedApart(changes, j, k);
    }
    forall i | 0 <= i < |doc| ensures doc[i].tracking == TrackingAt(changes, i) {
      if TrackingAt(changes, i).Some? {
        var k := TrackingAtFound(changes, i);
        assert TrackedChanges.Tagged(changes, i, changes[k].tracking);
      } else if doc[i].tracking.Some? {
        var t := doc[i].tracking.value;
        assert TrackedChanges.Tagged(changes, i, t);
        var k :| 0 <= k < |changes| && changes[k].range.Covers(i) && changes[k].tracking == t;
        TrackingAtInOrder(changes, |doc|, k, i);
      }
    }
  }

  /** `file.edit(operation)`: content and tracked changes follow the operation together. */
  method Edit(file: File, op: TextOperation) returns (r: Result<File, ApplyFailure>)
    requires WellFormed(file) && op.Valid()
    ensures |file.content| != op.baseLength ==> r == Err(LengthMismatch)
    ensures |file.content| == op.baseLength && op.targetLength > MAX_STRING_LENGTH ==> r == Err(TooLong)
    ensures |file.content| == op.baseLength && op.targetLength <= MAX_STRING_LENGTH ==>
      r.Ok? && WellFormed(r.value) && Shows(ApplyOps(op.ops, DocOf(file)), r.value.content, TracksOf(r.value))
  {
    var applied := op.Apply(DocOf(file));
    if applied.Err? {
      return Err(applied.error);
    }
    FileShowsTracking(file);
    var changes := TrackedChanges.ApplyTextOperation(file.changes, op.ops, DocOf(file));
    ShownFileIsWellFormed(changes.value, ApplyOps(op.ops, DocOf(file)));
    return Ok(File(TextOf(applied.value), changes.value));
  }

  /** A file whose characters are those that an output names, the copied ones taken from the file before. */
  predicate MadeOf(before: File, after: File, out: seq<Out>) {
    && |after.content| == |out|
    && forall j :: 0 <= j < |out| ==>
         match out[j]
         case New(ch) => after.content[j] == ch.c && TracksOf(after)[j] == ch.tracking
         case Copy(i, d) =>
           && 0 <= i < |before.content| && after.content[j] == before.content[i]
           && TracksOf(after)[j] == match d
                case Leave => TracksOf(before)[i]
                case Clear => None
                case Assign(t) => Some(t)
  }

  lemma ResultIsMadeOf(before: File, ops: seq<ScanOp>, after: File)
    requires Base(Atoms(ops)) == |before.content|
    requires Shows(ApplyOps(ops, DocOf(before)), after.content, TracksOf(after))
    ensures MadeOf(before, after, Render(Atoms(ops), 0))
  {
    ApplyIsRender(Atoms(ops), DocOf(before), 0);
  }

  /**
    Turning a file into what an external source sent: afterwards the file shows
    exactly that text to external sources, whether or not the edit was recorded
    as tracked changes. Every character of the new file is accounted for: what is
    new is the added text, recorded for the author, and what was there has met
    the fate that the diff decides.
  */
  method ReplaceVisibleContent(file: File, diffs: seq<Diff>, author: Option<string>)
    returns (r: Result<File, ApplyFailure>, ghost out: seq<Out>)
    requires WellFormed(file) && OldText(diffs) == VisibleContent(file)
    ensures r.Ok? ==> WellFormed(r.value) && VisibleContent(r.value) == NewText(diffs)
    ensures r.Ok? ==> MadeOf(file, r.value, out)
    ensures r.Ok? ==> RecordedText(author, NewChars(out), AddedText(diffs))
    ensures r.Ok? ==> forall j :: 0 <= j < |out| && out[j].New? ==> RecordedFor(author, out[j].ch)
    ensures r.Ok? ==> forall i :: 0 <= i < |file.content| ==> Decided(TracksOf(file), diffs, author, out, i)
    ensures r.Err? ==> r.error.TooLong?
  {
    var op := DiffsToTextOperation(file, diffs, author);
    r := Edit(file, op.value);
    out := Render(Atoms(op.value.ops), 0);
    if r.Ok? {
      var doc := ApplyOps(op.value.ops, DocOf(file));
      DiffReachesNewText(file, DocOf(file), diffs, author, op.value.ops);
      VisibleTextOfShown(doc, r.value.content, TracksOf(r.value), 0);
      assert doc[0..] == doc;
      ResultIsMadeOf(file, op.value.ops, r.value);
      DiffRecordsInsertions(file, diffs, author, op.value.ops);
      forall i | 0 <= i < |file.content| ensures Decided(TracksOf(file), diffs, author, out, i) {
        DiffDecidesEachCharacter(file, diffs, author, op.value.ops, i);
      }
    }
  }
}
