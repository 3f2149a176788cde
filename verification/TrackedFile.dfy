/**
  A file with tracked changes (overleaf-editor-core: string_file_data.js,
  tracked_change.js) and its per-character view.
*/
module TrackedFile {
  import opened Common
  import opened Ranges
  import opened TextModel

  datatype TrackedChange = TrackedChange(range: Range, tracking: TrackingProps) {
    predicate IsDelete() { tracking.kind.TrackedDelete? }
  }

  datatype File = File(content: string, changes: seq<TrackedChange>)

  type Tracks = seq<Option<TrackingProps>>

  /** Sorted, pairwise disjoint, not empty and inside the text. */
  ghost predicate InOrder(changes: seq<TrackedChange>, size: nat) {
    && (forall i :: 0 <= i < |changes| ==> 0 < changes[i].range.length && changes[i].range.End() <= size)
    && (forall i, j :: 0 <= i < j < |changes| ==> changes[i].range.End() <= changes[j].range.Start())
  }

  ghost predicate WellFormed(file: File) {
    InOrder(file.changes, |file.content|)
  }

  function TrackingAt(changes: seq<TrackedChange>, i: int): Option<TrackingProps> {
    if changes == [] then None
    else if changes[0].range.Covers(i) then Some(changes[0].tracking)
    else TrackingAt(changes[1..], i)
  }

  function TracksOf(file: File): Tracks {
    seq(|file.content|, i => TrackingAt(file.changes, i))
  }

  predicate Hidden(t: Option<TrackingProps>) { t.Some? && t.value.kind.TrackedDelete? }

  predicate Proposed(t: Option<TrackingProps>) { t.Some? && t.value.kind.TrackedInsert? }

  /** The text without tracked deletes, from position b on. */
  function VisibleFrom(content: string, tracks: Tracks, b: nat): string
    requires |content| == |tracks|
    decreases |content| - b
  {
    if b >= |content| then ""
    else (if Hidden(tracks[b]) then "" else [content[b]]) + VisibleFrom(content, tracks, b + 1)
  }

  function VisibleContent(file: File): string {
    VisibleFrom(file.content, TracksOf(file), 0)
  }

  lemma {:induction false} TrackingAtCovering(changes: seq<TrackedChange>, t: nat, i: int)
    requires t < |changes| && changes[t].range.Covers(i)
    requires forall s :: 0 <= s < t ==> !changes[s].range.Covers(i)
    ensures TrackingAt(changes, i) == Some(changes[t].tracking)
  {
    if t > 0 {
      assert !changes[0].range.Covers(i);
      assert forall s :: 0 <= s < t - 1 ==> changes[1..][s] == changes[s + 1];
      TrackingAtCovering(changes[1..], t - 1, i);
    }
  }

  /** The tracking of a character is that of the one change that covers it, if any. */
  lemma TrackingAtInOrder(changes: seq<TrackedChange>, size: nat, t: nat, i: int)
    requires InOrder(changes, size) && t < |changes| && changes[t].range.Covers(i)
    ensures TrackingAt(changes, i) == Some(changes[t].tracking)
  {
    forall s | 0 <= s < t ensures !changes[s].range.Covers(i) {
      assert changes[s].range.End() <= changes[t].range.Start();
    }
    TrackingAtCovering(changes, t, i);
  }

  lemma {:induction false} TrackingAtFound(changes: seq<TrackedChange>, i: int) returns (t: nat)
    requires TrackingAt(changes, i).Some?
    ensures t < |changes| && changes[t].range.Covers(i) && TrackingAt(changes, i) == Some(changes[t].tracking)
  {
    if changes[0].range.Covers(i) {
      t := 0;
    } else {
      t := TrackingAtFound(changes[1..], i);
      t := t + 1;
    }
  }

  lemma {:induction false} HiddenSkipped(content: string, tracks: Tracks, b: nat, m: nat)
    requires |content| == |tracks| && b <= m <= |content|
    requires forall i :: b <= i < m ==> Hidden(tracks[i])
    ensures VisibleFrom(content, tracks, b) == VisibleFrom(content, tracks, m)
    decreases m - b
  {
    if b < m {
      HiddenSkipped(content, tracks, b + 1, m);
    }
  }

  lemma {:induction false} VisibleTaken(content: string, tracks: Tracks, b: nat, m: nat)
    requires |content| == |tracks| && b <= m <= |content|
    requires forall i :: b <= i < m ==> !Hidden(tracks[i])
    ensures VisibleFrom(content, tracks, b) == content[b..m] + VisibleFrom(content, tracks, m)
    decreases m - b
  {
    if b < m {
      VisibleTaken(content, tracks, b + 1, m);
      var rest := VisibleFrom(content, tracks, m);
      assert [content[b]] + (content[b + 1..m] + rest) == content[b..m] + rest;
    }
  }

  /** The first k changes are dealt with: `content` is what is visible before the cursor. */
  ghost predicate Filtering(file: File, k: nat, cursor: nat, content: string) {
    && k <= |file.changes| && cursor <= |file.content|
    && (forall t :: k <= t < |file.changes| ==> cursor <= file.changes[t].range.Start())
    && (forall t :: 0 <= t < k && file.changes[t].IsDelete() ==> file.changes[t].range.End() <= cursor)
    && content + VisibleFrom(file.content, TracksOf(file), cursor) == VisibleContent(file)
  }

  lemma FilterDelete(file: File, k: nat, cursor: nat, content: string)
    requires WellFormed(file) && Filtering(file, k, cursor, content)
    requires k < |file.changes| && file.changes[k].IsDelete()
    ensures Filtering(file, k + 1, file.changes[k].range.End(), content + file.content[cursor..file.changes[k].range.Start()])
  {
    PastDelete(file, k, cursor);
    var tc := file.changes[k];
    var rest := VisibleFrom(file.content, TracksOf(file), tc.range.End());
    var gap := file.content[cursor..tc.range.Start()];
    assert content + (gap + rest) == content + gap + rest;
  }

  /** `getContent({ filterTrackedDeletes: true })`. */
  method FilteredContent(file: File) returns (content: string)
    requires WellFormed(file)
    ensures content == VisibleContent(file)
  {
    content := "";
    var cursor: nat := 0;
    for k := 0 to |file.changes|
      invariant Filtering(file, k, cursor, content)
    {
      var tc := file.changes[k];
      if !tc.IsDelete() {
        continue;
      }
      FilterDelete(file, k, cursor, content);
      if cursor < tc.range.Start() {
        content := content + file.content[cursor..tc.range.Start()];
      } else {
        assert content + file.content[cursor..tc.range.Start()] == content;
      }
      // skip the tracked change
      cursor := tc.range.End();
    }
    VisibleTail(file, cursor);
    if cursor < |file.content| {
      content := content + file.content[cursor..];
    }
  }

  /** Up to tracked delete k everything is visible, and the delete itself is not. */
  lemma PastDelete(file: File, k: nat, cursor: nat)
    requires WellFormed(file) && k < |file.changes| && cursor <= file.changes[k].range.Start()
    requires file.changes[k].IsDelete()
    requires forall t :: 0 <= t < k && file.changes[t].IsDelete() ==> file.changes[t].range.End() <= cursor
    ensures VisibleFrom(file.content, TracksOf(file), cursor)
         == file.content[cursor..file.changes[k].range.Start()]
            + VisibleFrom(file.content, TracksOf(file), file.changes[k].range.End())
    ensures forall t :: k < t < |file.changes| ==> file.changes[k].range.End() <= file.changes[t].range.Start()
    ensures forall t :: 0 <= t < k ==> file.changes[t].range.End() <= file.changes[k].range.Start()
  {
    VisibleGap(file, k, cursor);
    HiddenRange(file, k);
    HiddenSkipped(file.content, TracksOf(file), file.changes[k].range.Start(), file.changes[k].range.End());
  }

  lemma HiddenRange(file: File, k: nat)
    requires WellFormed(file) && k < |file.changes|
    ensures forall i {:trigger TracksOf(file)[i]} ::
      file.changes[k].range.Covers(i) ==> TracksOf(file)[i] == Some(file.changes[k].tracking)
  {
    forall i | file.changes[k].range.Covers(i)
      ensures TracksOf(file)[i] == Some(file.changes[k].tracking)
    {
      TrackingAtInOrder(file.changes, |file.content|, k, i);
    }
  }

  /** Nothing is hidden between the last tracked delete before change k and change k. */
  lemma VisibleGap(file: File, k: nat, cursor: nat)
    requires WellFormed(file) && k < |file.changes| && cursor <= file.changes[k].range.Start()
    requires forall t :: 0 <= t < k && file.changes[t].IsDelete() ==> file.changes[t].range.End() <= cursor
    ensures forall i :: cursor <= i < file.changes[k].range.Start() ==> !Hidden(TracksOf(file)[i])
    ensures VisibleFrom(file.content, TracksOf(file), cursor)
         == file.content[cursor..file.changes[k].range.Start()]
            + VisibleFrom(file.content, TracksOf(file), file.changes[k].range.Start())
  {
    assert forall t :: k < t < |file.changes| ==> file.changes[k].range.End() <= file.changes[t].range.Start();
    forall i | cursor <= i < file.changes[k].range.Start() ensures !Hidden(TracksOf(file)[i]) {
      if TrackingAt(file.changes, i).Some? {
        var t := TrackingAtFound(file.changes, i);
      }
    }
    VisibleTaken(file.content, TracksOf(file), cursor, file.changes[k].range.Start());
  }

  lemma VisibleTail(file: File, cursor: nat)
    requires WellFormed(file) && cursor <= |file.content|
    requires forall t :: 0 <= t < |file.changes| && file.changes[t].IsDelete() ==> file.changes[t].range.End() <= cursor
    ensures VisibleFrom(file.content, TracksOf(file), cursor) == file.content[cursor..]
  {
    forall i | cursor <= i < |file.content| ensures !Hidden(TracksOf(file)[i]) {
      if TrackingAt(file.changes, i).Some? {
        var t := TrackingAtFound(file.changes, i);
      }
    }
    VisibleTaken(file.content, TracksOf(file), cursor, |file.content|);
  }
}
