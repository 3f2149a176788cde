/**
  Exporting tracked changes and comments to the document updater, which does not
  see tracked deletes (overleaf-editor-core: doc_updater_compatible_ranges.js).
*/
module DocUpdaterRanges {
  import opened Common
  import opened Ranges
  import opened TextModel
  import opened TrackedFile
  import Comments

  // `{ p, d }` or `{ p, i }` with the author.
  datatype ChangeOp = ChangeOp(p: int, kind: TrackingKind, text: string, userId: string)

  // `{ p, c, t, resolved }`.
  datatype CommentOp = CommentOp(p: int, c: string, t: string, resolved: bool)

  /** The visible text of [b, e). */
  function VisibleSlice(content: string, tracks: Tracks, b: nat, e: nat): string
    requires b <= e <= |content| == |tracks|
    decreases e - b
  {
    if b == e then ""
    else (if Hidden(tracks[b]) then "" else [content[b]]) + VisibleSlice(content, tracks, b + 1, e)
  }

  lemma {:induction false} SliceConcat(content: string, tracks: Tracks, b: nat, m: nat, e: nat)
    requires b <= m <= e <= |content| == |tracks|
    ensures VisibleSlice(content, tracks, b, e) == VisibleSlice(content, tracks, b, m) + VisibleSlice(content, tracks, m, e)
    decreases m - b
  {
    if b < m {
      SliceConcat(content, tracks, b + 1, m, e);
    }
  }

  lemma {:induction false} SliceOfVisible(content: string, tracks: Tracks, b: nat, e: nat)
    requires b <= e <= |content| == |tracks|
    requires forall i :: b <= i < e ==> !Hidden(tracks[i])
    ensures VisibleSlice(content, tracks, b, e) == content[b..e]
    decreases e - b
  {
    if b < e {
      SliceOfVisible(content, tracks, b + 1, e);
      assert content[b..e] == [content[b]] + content[b + 1..e];
    }
  }

  lemma {:induction false} SliceOfHidden(content: string, tracks: Tracks, b: nat, e: nat)
    requires b <= e <= |content| == |tracks|
    requires forall i :: b <= i < e ==> Hidden(tracks[i])
    ensures VisibleSlice(content, tracks, b, e) == ""
    decreases e - b
  {
    if b < e {
      SliceOfHidden(content, tracks, b + 1, e);
    }
  }

  lemma {:induction false} SliceToEnd(content: string, tracks: Tracks, b: nat)
    requires b <= |content| == |tracks|
    ensures VisibleSlice(content, tracks, b, |content|) == VisibleFrom(content, tracks, b)
    decreases |content| - b
  {
    if b < |content| {
      SliceToEnd(content, tracks, b + 1);
    }
  }

  // ----- tracked changes -----

  /** Between two neighbouring changes nothing is tracked. */
  lemma GapAfter(file: File, k: nat, b: nat, i: nat)
    requires WellFormed(file) && k <= |file.changes|
    requires b == if k == 0 then 0 else file.changes[k - 1].range.End()
    requires b <= i < |file.content| && (k < |file.changes| ==> i < file.changes[k].range.Start())
    ensures !Hidden(TracksOf(file)[i])
  {
    assert forall t :: 0 <= t < k - 1 ==> file.changes[t].range.End() <= file.changes[k - 1].range.Start();
    assert forall t :: k < t < |file.changes| ==> file.changes[k].range.End() <= file.changes[t].range.Start();
    if TrackingAt(file.changes, i).Some? {
      var t := TrackingAtFound(file.changes, i);
    }
  }

  /** Where the part before change k ends: at its start, or at the end of the text. */
  function StartOf(file: File, k: nat): nat
    requires k <= |file.changes|
  {
    if k < |file.changes| then file.changes[k].range.Start() else |file.content|
  }

  /** Where the part after change k - 1 begins. */
  function EndBefore(file: File, k: nat): nat
    requires k <= |file.changes|
  {
    if k == 0 then 0 else file.changes[k - 1].range.End()
  }

  lemma GapSlice(file: File, k: nat)
    requires WellFormed(file) && k <= |file.changes|
    ensures EndBefore(file, k) <= StartOf(file, k) <= |file.content|
    ensures VisibleSlice(file.content, TracksOf(file), EndBefore(file, k), StartOf(file, k))
         == file.content[EndBefore(file, k)..StartOf(file, k)]
  {
    forall i | EndBefore(file, k) <= i < StartOf(file, k) ensures !Hidden(TracksOf(file)[i]) {
      GapAfter(file, k, EndBefore(file, k), i);
    }
    SliceOfVisible(file.content, TracksOf(file), EndBefore(file, k), StartOf(file, k));
  }

  lemma RangeSlice(file: File, k: nat)
    requires WellFormed(file) && k < |file.changes|
    ensures VisibleSlice(file.content, TracksOf(file), file.changes[k].range.Start(), file.changes[k].range.End())
         == if file.changes[k].IsDelete() then "" else file.content[file.changes[k].range.Start()..file.changes[k].range.End()]
  {
    var r := file.changes[k].range;
    HiddenRange(file, k);
    assert forall i :: r.Start() <= i < r.End() ==> r.Covers(i);
    if file.changes[k].IsDelete() {
      SliceOfHidden(file.content, TracksOf(file), r.Start(), r.End());
    } else {
      SliceOfVisible(file.content, TracksOf(file), r.Start(), r.End());
    }
  }

  /** The visible text before change k + 1 is that before change k, the change if visible, and the gap. */
  lemma SliceStep(file: File, k: nat)
    requires WellFormed(file) && k < |file.changes|
    ensures StartOf(file, k) <= file.changes[k].range.End() <= StartOf(file, k + 1) <= |file.content|
    ensures var r, tracks := file.changes[k].range, TracksOf(file);
      VisibleSlice(file.content, tracks, 0, StartOf(file, k + 1))
        == VisibleSlice(file.content, tracks, 0, StartOf(file, k))
           + (if file.changes[k].IsDelete() then "" else file.content[r.Start()..r.End()])
           + file.content[r.End()..StartOf(file, k + 1)]
  {
    var r, tracks := file.changes[k].range, TracksOf(file);
    GapSlice(file, k + 1);
    RangeSlice(file, k);
    SliceConcat(file.content, tracks, 0, r.Start(), r.End());
    SliceConcat(file.content, tracks, 0, r.End(), StartOf(file, k + 1));
  }

  /** A change sits after as many visible characters as precede it, and carries its own text. */
  ghost predicate Placed(file: File, k: nat, op: ChangeOp)
    requires WellFormed(file) && k < |file.changes|
  {
    var tc := file.changes[k];
    && op.p == |VisibleSlice(file.content, TracksOf(file), 0, tc.range.Start())|
    && op.kind == tc.tracking.kind && op.userId == tc.tracking.userId
    && op.text == file.content[tc.range.Start()..tc.range.End()]
  }

  /** The loop over tracked changes. */
  method ExportChanges(file: File) returns (ops: seq<ChangeOp>)
    requires WellFormed(file)
    ensures |ops| == |file.changes| && forall k :: 0 <= k < |ops| ==> Placed(file, k, ops[k])
  {
    ops := [];
    var trackedDeletionOffset := 0;
    FirstStart(file);
    for k := 0 to |file.changes|
      invariant |ops| == k && forall j :: 0 <= j < k ==> Placed(file, j, ops[j])
      invariant StartOf(file, k) <= |file.content|
      invariant StartOf(file, k) - trackedDeletionOffset == |VisibleSlice(file.content, TracksOf(file), 0, StartOf(file, k))|
    {
      var tc := file.changes[k];
      SliceStep(file, k);
      ops := ops + [ChangeOp(tc.range.Start() - trackedDeletionOffset, tc.tracking.kind,
        file.content[tc.range.Start()..tc.range.End()], tc.tracking.userId)];
      if tc.IsDelete() {
        trackedDeletionOffset := trackedDeletionOffset + tc.range.length;
      }
    }
  }

  lemma FirstStart(file: File)
    requires WellFormed(file)
    ensures StartOf(file, 0) <= |file.content|
    ensures VisibleSlice(file.content, TracksOf(file), 0, StartOf(file, 0)) == file.content[..StartOf(file, 0)]
  {
    GapSlice(file, 0);
  }

  /** Putting one deleted text back; an insert is there already. */
  function PutBack(text: string, op: ChangeOp): string {
    if op.kind.TrackedDelete? && 0 <= op.p <= |text| then text[..op.p] + op.text + text[op.p..] else text
  }

  /** Re-inserting the deleted texts at their positions, last one first. */
  function Reinsert(text: string, ops: seq<ChangeOp>): string
    decreases |ops|
  {
    if ops == [] then text else Reinsert(PutBack(text, Last(ops)), Front(ops))
  }

  /** Visible text up to change k, full text from there on. */
  function HalfFiltered(file: File, k: nat): string
    requires WellFormed(file) && k <= |file.changes| && StartOf(file, k) <= |file.content|
  {
    VisibleSlice(file.content, TracksOf(file), 0, StartOf(file, k)) + file.content[StartOf(file, k)..]
  }

  lemma {:induction false} ReinsertFrom(file: File, ops: seq<ChangeOp>)
    requires WellFormed(file) && |ops| <= |file.changes|
    requires forall k :: 0 <= k < |ops| ==> Placed(file, k, ops[k])
    ensures StartOf(file, |ops|) <= |file.content|
    ensures Reinsert(HalfFiltered(file, |ops|), ops) == file.content
    decreases |ops|
  {
    var n := |ops|;
    if n == 0 {
      FirstStart(file);
      assert file.content[..StartOf(file, 0)] + file.content[StartOf(file, 0)..] == file.content;
    } else {
      var rest := Front(ops);
      SliceStep(file, n - 1);
      ReinsertStep(file, n - 1, ops[n - 1]);
      assert forall k :: 0 <= k < |rest| ==> rest[k] == ops[k];
      hide WellFormed, Placed, StartOf, HalfFiltered;
      ReinsertFrom(file, rest);
    }
  }

  lemma ReinsertStep(file: File, k: nat, op: ChangeOp)
    requires WellFormed(file) && k < |file.changes| && Placed(file, k, op)
    requires StartOf(file, k) <= StartOf(file, k + 1) <= |file.content|
    ensures HalfFiltered(file, k) == PutBack(HalfFiltered(file, k + 1), op)
  {
    var c, r, next := file.content, file.changes[k].range, StartOf(file, k + 1);
    var left := VisibleSlice(c, TracksOf(file), 0, r.Start());
    SliceStep(file, k);
    Rejoin(c, left, r.Start(), r.End(), next);
    if op.kind.TrackedDelete? {
    }
  }

  lemma Rejoin(c: string, left: string, b: nat, m: nat, e: nat)
    requires b <= m <= e <= |c|
    ensures left + c[b..] == left + c[b..m] + (c[m..e] + c[e..])
    ensures left + c[b..] == left + c[b..m] + c[m..e] + c[e..]
    ensures left + "" + c[m..e] + c[e..] == left + (c[m..e] + c[e..])
  {
    assert c[b..] == c[b..m] + c[m..e] + c[e..];
  }

  predicate FoundAt(text: string, op: ChangeOp) {
    0 <= op.p <= op.p + |op.text| <= |text| && text[op.p..op.p + |op.text|] == op.text
  }

  /**
    The exported changes lose nothing: put back into the visible text, last one
    first, the deleted texts rebuild the full content; and every inserted text is
    found in the visible text at its position.
  */
  lemma ExportLosesNothing(file: File, ops: seq<ChangeOp>)
    requires WellFormed(file) && |ops| == |file.changes|
    requires forall k :: 0 <= k < |ops| ==> Placed(file, k, ops[k])
    ensures Reinsert(VisibleContent(file), ops) == file.content
    ensures forall k :: 0 <= k < |ops| && ops[k].kind.TrackedInsert? ==> FoundAt(VisibleContent(file), ops[k])
  {
    Rebuilt(file, ops);
    forall k | 0 <= k < |ops| && ops[k].kind.TrackedInsert? ensures FoundAt(VisibleContent(file), ops[k]) {
      InsertIsFound(file, k, ops[k]);
    }
  }

  lemma Rebuilt(file: File, ops: seq<ChangeOp>)
    requires WellFormed(file) && |ops| == |file.changes|
    requires forall k :: 0 <= k < |ops| ==> Placed(file, k, ops[k])
    ensures Reinsert(VisibleContent(file), ops) == file.content
  {
    var c, tracks := file.content, TracksOf(file);
    ReinsertFrom(file, ops);
    SliceToEnd(c, tracks, 0);
    assert HalfFiltered(file, |ops|) == VisibleSlice(c, tracks, 0, |c|) + c[|c|..] == VisibleContent(file);
  }

  lemma InsertIsFound(file: File, k: nat, op: ChangeOp)
    requires WellFormed(file) && k < |file.changes| && Placed(file, k, op) && op.kind.TrackedInsert?
    ensures FoundAt(VisibleContent(file), op)
  {
    RangeSlice(file, k);
    SliceIsFound(file.content, TracksOf(file), file.changes[k].range.Start(), file.changes[k].range.End(), op);
  }

  lemma SliceIsFound(content: string, tracks: Tracks, b: nat, e: nat, op: ChangeOp)
    requires b <= e <= |content| == |tracks|
    requires op.p == |VisibleSlice(content, tracks, 0, b)| && op.text == VisibleSlice(content, tracks, b, e)
    ensures FoundAt(VisibleFrom(content, tracks, 0), op)
  {
    SliceAt(content, tracks, b, e);
  }

  /** A visible slice is found in the visible text behind the visible text before it. */
  lemma SliceAt(content: string, tracks: Tracks, b: nat, e: nat)
    requires b <= e <= |content| == |tracks|
    ensures var p, c := |VisibleSlice(content, tracks, 0, b)|, VisibleSlice(content, tracks, b, e);
      var all := VisibleFrom(content, tracks, 0);
      p + |c| <= |all| && all[p..p + |c|] == c
  {
    var left, c, right := VisibleSlice(content, tracks, 0, b), VisibleSlice(content, tracks, b, e),
      VisibleSlice(content, tracks, e, |content|);
    SliceConcat(content, tracks, 0, b, |content|);
    SliceConcat(content, tracks, b, e, |content|);
    SliceToEnd(content, tracks, 0);
    var all := VisibleFrom(content, tracks, 0);
    assert all == left + (c + right);
    assert all == left + c + right;
    assert (left + c + right)[|left|..|left| + |c|] == c;
  }

  // ----- comments -----

  /** The tracked deletes, in order: exactly what hides characters. */
  ghost predicate Deletions(file: File, deletions: seq<Range>) {
    && (forall k :: 0 <= k < |deletions| ==> 0 < deletions[k].length && deletions[k].End() <= |file.content|)
    && (forall j, k :: 0 <= j < k < |deletions| ==> deletions[j].End() <= deletions[k].Start())
    && (forall i :: 0 <= i < |file.content| ==>
          (Hidden(TracksOf(file)[i]) <==> exists k :: 0 <= k < |deletions| && deletions[k].Covers(i)))
  }

  /** The tracked deletes among the first k changes, in order. */
  ghost predicate Filtered(file: File, k: nat, deletions: seq<Range>) {
    k <= |file.changes| && Includes(file, k, deletions) && AllDeleted(file, k, deletions) && Ascending(deletions)
  }

  ghost predicate Includes(file: File, k: nat, deletions: seq<Range>)
    requires k <= |file.changes|
  {
    forall t :: 0 <= t < k && file.changes[t].IsDelete() ==> file.changes[t].range in deletions
  }

  ghost predicate AllDeleted(file: File, k: nat, deletions: seq<Range>)
    requires k <= |file.changes|
  {
    forall j :: 0 <= j < |deletions| ==> DeletedBefore(file, k, deletions[j])
  }

  ghost predicate DeletedBefore(file: File, k: nat, r: Range)
    requires k <= |file.changes|
  {
    exists t :: 0 <= t < k && file.changes[t].IsDelete() && file.changes[t].range == r
  }

  predicate Ascending(deletions: seq<Range>) {
    forall i, j :: 0 <= i < j < |deletions| ==> deletions[i].End() <= deletions[j].Start()
  }

  lemma FilteredNext(file: File, k: nat, deletions: seq<Range>)
    requires WellFormed(file) && Filtered(file, k, deletions) && k < |file.changes|
    ensures var tc := file.changes[k];
      Filtered(file, k + 1, if tc.IsDelete() then deletions + [tc.range] else deletions)
  {
    forall j | 0 <= j < |deletions|
      ensures DeletedBefore(file, k + 1, deletions[j]) && deletions[j].End() <= file.changes[k].range.Start()
    {
      assert DeletedBefore(file, k, deletions[j]);
      DeletedEarlier(file, k, deletions[j]);
    }
    hide DeletedBefore;
    IncludesNext(file, k, deletions);
    if file.changes[k].IsDelete() {
      AllDeletedNext(file, k, deletions);
      AscendingNext(deletions, file.changes[k].range);
    }
  }

  lemma IncludesNext(file: File, k: nat, deletions: seq<Range>)
    requires k < |file.changes| && Includes(file, k, deletions)
    ensures var tc := file.changes[k];
      Includes(file, k + 1, if tc.IsDelete() then deletions + [tc.range] else deletions)
  {
  }

  lemma AllDeletedNext(file: File, k: nat, deletions: seq<Range>)
    requires k < |file.changes| && AllDeleted(file, k + 1, deletions) && file.changes[k].IsDelete()
    ensures AllDeleted(file, k + 1, deletions + [file.changes[k].range])
  {
    assert DeletedBefore(file, k + 1, file.changes[k].range);
    hide DeletedBefore;
  }

  lemma AscendingNext(deletions: seq<Range>, r: Range)
    requires Ascending(deletions) && forall i :: 0 <= i < |deletions| ==> deletions[i].End() <= r.Start()
    ensures Ascending(deletions + [r])
  {
  }

  lemma DeletedEarlier(file: File, k: nat, r: Range)
    requires WellFormed(file) && k < |file.changes| && DeletedBefore(file, k, r)
    ensures DeletedBefore(file, k + 1, r) && r.End() <= file.changes[k].range.Start()
  {
    var t :| 0 <= t < k && file.changes[t].IsDelete() && file.changes[t].range == r;
    assert file.changes[t].range.End() <= file.changes[k].range.Start();
  }

  lemma FilteredAll(file: File, deletions: seq<Range>)
    requires WellFormed(file) && Filtered(file, |file.changes|, deletions)
    ensures Deletions(file, deletions)
  {
    forall j | 0 <= j < |deletions| ensures 0 < deletions[j].length && deletions[j].End() <= |file.content| {
      assert DeletedBefore(file, |file.changes|, deletions[j]);
    }
    forall i | 0 <= i < |file.content|
      ensures Hidden(TracksOf(file)[i]) <==> exists k :: 0 <= k < |deletions| && deletions[k].Covers(i)
    {
      HiddenWhenCovered(file, deletions, i);
    }
  }

  lemma HiddenWhenCovered(file: File, deletions: seq<Range>, i: nat)
    requires WellFormed(file) && Filtered(file, |file.changes|, deletions) && i < |file.content|
    ensures Hidden(TracksOf(file)[i]) <==> exists k :: 0 <= k < |deletions| && deletions[k].Covers(i)
  {
    if Hidden(TracksOf(file)[i]) {
      var t := TrackingAtFound(file.changes, i);
      assert file.changes[t].range in deletions;
    }
    if exists k :: 0 <= k < |deletions| && deletions[k].Covers(i) {
      var k :| 0 <= k < |deletions| && deletions[k].Covers(i);
      assert DeletedBefore(file, |file.changes|, deletions[k]);
      var t :| 0 <= t < |file.changes| && file.changes[t].IsDelete() && file.changes[t].range == deletions[k];
      TrackingAtInOrder(file.changes, |file.content|, t, i);
    }
  }

  /** `trackedChanges.filter(tc => tc.tracking.type === 'delete')`. */
  method FilterDeletions(file: File) returns (deletions: seq<Range>)
    requires WellFormed(file)
    ensures Deletions(file, deletions)
  {
    deletions := [];
    for k := 0 to |file.changes|
      invariant Filtered(file, k, deletions)
    {
      FilteredNext(file, k, deletions);
      if file.changes[k].IsDelete() {
        deletions := deletions + [file.changes[k].range];
      }
    }
    FilteredAll(file, deletions);
  }

  /** Between deletions everything is visible. */
  lemma BetweenDeletions(file: File, deletions: seq<Range>, k: nat, b: nat, e: nat)
    requires Deletions(file, deletions) && k <= |deletions| && b <= e <= |file.content|
    requires forall j :: 0 <= j < k ==> deletions[j].End() <= b
    requires k < |deletions| ==> e <= deletions[k].Start()
    ensures VisibleSlice(file.content, TracksOf(file), b, e) == file.content[b..e]
  {
    forall i | b <= i < e ensures !Hidden(TracksOf(file)[i]) {
      forall j | 0 <= j < |deletions| ensures !deletions[j].Covers(i) {
        assert j > k ==> deletions[k].End() <= deletions[j].Start();
      }
    }
    SliceOfVisible(file.content, TracksOf(file), b, e);
  }

  lemma InsideDeletion(file: File, deletions: seq<Range>, k: nat, b: nat, e: nat)
    requires Deletions(file, deletions) && k < |deletions|
    requires deletions[k].Start() <= b <= e <= deletions[k].End()
    ensures e <= |file.content| && VisibleSlice(file.content, TracksOf(file), b, e) == ""
  {
    forall i | b <= i < e ensures Hidden(TracksOf(file)[i]) {
      assert deletions[k].Covers(i);
    }
    SliceOfHidden(file.content, TracksOf(file), b, e);
  }

  /** Up to a point in a deletion there is as much visible text as up to its start. */
  lemma PassDeletion(file: File, deletions: seq<Range>, k: nat, b: nat, e: nat)
    requires WellFormed(file) && Deletions(file, deletions) && k < |deletions| && b <= e <= deletions[k].End() <= |file.content|
    requires b <= deletions[k].Start() <= e
    requires forall j :: 0 <= j < k ==> deletions[j].End() <= b
    ensures VisibleSlice(file.content, TracksOf(file), 0, e)
         == VisibleSlice(file.content, TracksOf(file), 0, b) + file.content[b..deletions[k].Start()]
  {
    var s := deletions[k].Start();
    BetweenDeletions(file, deletions, k, b, s);
    InsideDeletion(file, deletions, k, s, e);
    SliceConcat(file.content, TracksOf(file), 0, b, s);
    SliceConcat(file.content, TracksOf(file), 0, s, e);
  }

  /** The first loop of a comment: its position among the visible characters. */
  method CommentPosition(file: File, deletions: seq<Range>, commentStart: nat) returns (position: int, index: nat)
    requires WellFormed(file) && Deletions(file, deletions) && commentStart <= |file.content|
    ensures position == |VisibleSlice(file.content, TracksOf(file), 0, commentStart)|
    ensures index <= |deletions| && (forall j :: 0 <= j < index ==> deletions[j].End() <= commentStart)
    ensures index < |deletions| ==> commentStart < deletions[index].End()
  {
    ghost var c, tracks := file.content, TracksOf(file);
    position, index := commentStart, 0;
    ghost var passed: nat := 0;
    while index < |deletions| && deletions[index].End() <= commentStart
      invariant index <= |deletions| && passed <= commentStart
      invariant passed == if index == 0 then 0 else deletions[index - 1].End()
      invariant forall j :: 0 <= j < index ==> deletions[j].End() <= passed
      invariant position - (commentStart - passed) == |VisibleSlice(c, tracks, 0, passed)|
    {
      var d := deletions[index];
      PassDeletion(file, deletions, index, passed, d.End());
      position := position - d.length;
      passed := d.End();
      index := index + 1;
    }
    if index < |deletions| && deletions[index].Start() < commentStart {
      var s := deletions[index].Start();
      PassDeletion(file, deletions, index, passed, commentStart);
      position := position - (commentStart - s);
    } else {
      BetweenDeletions(file, deletions, index, passed, commentStart);
      SliceConcat(c, tracks, 0, passed, commentStart);
    }
  }

  /** The visible text from the cursor to the end of a deletion, or of the comment, is what precedes the deletion. */
  lemma NextPiece(file: File, deletions: seq<Range>, k: nat, start: nat, cursor: nat, end: nat)
    requires WellFormed(file) && Deletions(file, deletions) && k < |deletions|
    requires start <= cursor < end <= |file.content| && cursor < deletions[k].End() <= |file.content| && deletions[k].Start() < end
    requires forall j :: 0 <= j < k ==> deletions[j].End() <= cursor
    ensures VisibleSlice(file.content, TracksOf(file), start, Min(deletions[k].End(), end))
         == VisibleSlice(file.content, TracksOf(file), start, cursor) + file.content[cursor..Max(cursor, deletions[k].Start())]
  {
    var s, e := Max(cursor, deletions[k].Start()), Min(deletions[k].End(), end);
    if cursor < s { BetweenDeletions(file, deletions, k, cursor, s); }
    InsideDeletion(file, deletions, k, s, e);
    SliceConcat(file.content, TracksOf(file), start, cursor, s);
    SliceConcat(file.content, TracksOf(file), start, s, e);
  }

  /** The second loop of a comment: its visible text. */
  method CommentContent(file: File, deletions: seq<Range>, first: nat, commentStart: nat, commentEnd: nat)
    returns (text: string)
    requires WellFormed(file) && Deletions(file, deletions) && commentStart <= commentEnd <= |file.content|
    requires first <= |deletions| && forall j :: 0 <= j < first ==> deletions[j].End() <= commentStart
    requires first < |deletions| ==> commentStart < deletions[first].End()
    ensures text == VisibleSlice(file.content, TracksOf(file), commentStart, commentEnd)
  {
    ghost var c, tracks := file.content, TracksOf(file);
    text := "";
    var cursor: nat, index := commentStart, first;
    while cursor < commentEnd
      invariant commentStart <= cursor <= commentEnd && index <= |deletions|
      invariant forall j :: 0 <= j < index ==> deletions[j].End() <= cursor
      invariant index < |deletions| ==> cursor < deletions[index].End()
      invariant text == VisibleSlice(c, tracks, commentStart, cursor)
      decreases |deletions| - index
    {
      SliceConcat(c, tracks, commentStart, cursor, commentEnd);
      if index == |deletions| || deletions[index].Start() >= commentEnd {
        BetweenDeletions(file, deletions, index, cursor, commentEnd);
        text := text + file.content[cursor..commentEnd];
        return;
      }
      var d := deletions[index];
      NextPiece(file, deletions, index, commentStart, cursor, commentEnd);
      if d.Start() > cursor {
        text := text + file.content[cursor..d.Start()];
      }
      if d.End() <= commentEnd {
        assert index + 1 < |deletions| ==> d.End() <= deletions[index + 1].Start();
        cursor := d.End();
        index := index + 1;
      } else {
        return;
      }
    }
  }

  ghost predicate InText(comment: Comments.Comment, size: nat) {
    && Comments.Canonical(comment.ranges)
    && forall k :: 0 <= k < |comment.ranges| ==> comment.ranges[k].End() <= size
  }

  /**
    A comment sits where it says: its position is the number of visible characters
    before its first range, and its text is the visible text from there to the end
    of its last range. A comment without ranges is empty and at the start.
  */
  ghost predicate CommentPlaced(file: File, comment: Comments.Comment, op: CommentOp)
    requires WellFormed(file) && InText(comment, |file.content|)
  {
    && op.t == comment.id && op.resolved == comment.resolved
    && (comment.ranges == [] ==> op.p == 0 && op.c == "")
    && (comment.ranges != [] ==>
          var b, e := comment.ranges[0].Start(), Last(comment.ranges).End();
          && b <= e <= |file.content|
          && op.p == |VisibleSlice(file.content, TracksOf(file), 0, b)|
          && op.c == VisibleSlice(file.content, TracksOf(file), b, e))
  }

  /** The visible text from a placed comment's position on, for the length of its text, is its text. */
  lemma CommentIsFound(file: File, comment: Comments.Comment, op: CommentOp)
    requires WellFormed(file) && InText(comment, |file.content|) && CommentPlaced(file, comment, op)
    ensures 0 <= op.p <= op.p + |op.c| <= |VisibleContent(file)|
    ensures VisibleContent(file)[op.p..op.p + |op.c|] == op.c
  {
    if comment.ranges != [] {
      SliceAt(file.content, TracksOf(file), comment.ranges[0].Start(), Last(comment.ranges).End());
    }
  }

  method ExportComment(file: File, deletions: seq<Range>, comment: Comments.Comment) returns (op: CommentOp)
    requires WellFormed(file) && Deletions(file, deletions) && InText(comment, |file.content|)
    ensures CommentPlaced(file, comment, op)
  {
    if |comment.ranges| == 0 {
      return CommentOp(0, "", comment.id, comment.resolved);
    }
    var commentStart := comment.ranges[0].Start();
    var commentEnd := Last(comment.ranges).End();
    var position, index := CommentPosition(file, deletions, commentStart);
    var text := CommentContent(file, deletions, index, commentStart, commentEnd);
    op := CommentOp(position, text, comment.id, comment.resolved);
  }

  /** `getDocUpdaterCompatibleRanges` for an editable file. */
  method Export(file: File, comments: seq<Comments.Comment>) returns (changes: seq<ChangeOp>, ops: seq<CommentOp>)
    requires WellFormed(file) && forall k :: 0 <= k < |comments| ==> InText(comments[k], |file.content|)
    ensures |changes| == |file.changes| && forall k :: 0 <= k < |changes| ==> Placed(file, k, changes[k])
    ensures Reinsert(VisibleContent(file), changes) == file.content
    ensures |ops| == |comments| && forall k :: 0 <= k < |ops| ==> CommentPlaced(file, comments[k], ops[k])
  {
    changes := ExportChanges(file);
    ExportLosesNothing(file, changes);
    var deletions := FilterDeletions(file);
    ops := [];
    for k := 0 to |comments|
      invariant |ops| == k && forall j :: 0 <= j < k ==> CommentPlaced(file, comments[j], ops[j])
    {
      var op := ExportComment(file, deletions, comments[k]);
      ops := ops + [op];
    }
  }
}
