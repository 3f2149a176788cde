/**
  The list of tracked changes under a text operation (overleaf-editor-core:
  tracked_change_list.js lines 115-371, tracked_change.js lines 49-79).

  While an operation is applied the list may be unsorted; what is kept is that
  its ranges are apart and tag every character as the document does. Sorting and
  merging at the end bring it back into order.
*/
module TrackedChanges {
  import opened Common
  import opened Ranges
  import opened TextModel
  import opened TextOperations
  import opened TrackedFile

  type Changes = seq<TrackedChange>

  datatype MergeError = RangesOverlap | EmptyRange

  ghost predicate Tagged(changes: Changes, i: int, t: TrackingProps) {
    exists k :: 0 <= k < |changes| && changes[k].range.Covers(i) && changes[k].tracking == t
  }

  /** No empty range and no two that overlap, in any order. */
  ghost predicate Apart(changes: Changes) {
    && (forall k :: 0 <= k < |changes| ==> changes[k].range.length > 0)
    && (forall j, k :: 0 <= j < k < |changes| ==> !changes[j].range.Overlaps(changes[k].range))
  }

  /** The list tags exactly the characters that are tracked in the document. */
  ghost predicate ShowsTracking(changes: Changes, doc: Doc) {
    && Apart(changes)
    && forall i, t :: Tagged(changes, i, t) <==> 0 <= i < |doc| && doc[i].tracking == Some(t)
  }

  // ----- building a list piece by piece -----

  type Image = (TrackedChange, int, TrackingProps) -> bool

  ghost predicate ImagesSoFar(pieces: Changes, changes: Changes, k: nat, image: Image) {
    && Apart(pieces)
    && forall i, t :: Tagged(pieces, i, t) <==> exists m :: 0 <= m < k && m < |changes| && image(changes[m], i, t)
  }

  lemma TaggedConcat(a: Changes, b: Changes, i: int, t: TrackingProps)
    ensures Tagged(a + b, i, t) <==> Tagged(a, i, t) || Tagged(b, i, t)
  {
    if Tagged(a, i, t) {
      var k :| 0 <= k < |a| && a[k].range.Covers(i) && a[k].tracking == t;
      assert (a + b)[k] == a[k];
    }
    if Tagged(b, i, t) {
      var k :| 0 <= k < |b| && b[k].range.Covers(i) && b[k].tracking == t;
      assert (a + b)[|a| + k] == b[k];
    }
  }

  lemma ApartConcat(a: Changes, b: Changes)
    requires Apart(a) && Apart(b)
    requires forall i, t, u :: !(Tagged(a, i, t) && Tagged(b, i, u))
    ensures Apart(a + b)
  {
    forall j, k | 0 <= j < k < |a + b| ensures !(a + b)[j].range.Overlaps((a + b)[k].range) {
      if j < |a| <= k {
        var x, y := a[j], b[k - |a|];
        var common := Max(x.range.Start(), y.range.Start());
        assert !(Tagged(a, common, x.tracking) && Tagged(b, common, y.tracking));
        assert x.range.Covers(common) ==> Tagged(a, common, x.tracking);
        assert y.range.Covers(common) ==> Tagged(b, common, y.tracking);
      }
    }
  }

  lemma NextImages(pieces: Changes, more: Changes, changes: Changes, k: nat, image: Image)
    requires ImagesSoFar(pieces, changes, k, image) && k < |changes|
    requires Apart(more) && forall i, t :: Tagged(more, i, t) <==> image(changes[k], i, t)
    requires forall i, t, u, m :: 0 <= m < k && image(changes[m], i, t) ==> !image(changes[k], i, u)
    ensures ImagesSoFar(pieces + more, changes, k + 1, image)
  {
    ApartConcat(pieces, more);
    forall i, t
      ensures Tagged(pieces + more, i, t) <==> exists m :: 0 <= m < k + 1 && m < |changes| && image(changes[m], i, t)
    {
      TaggedConcat(pieces, more, i, t);
      if Tagged(pieces, i, t) {
        var m :| 0 <= m < k && m < |changes| && image(changes[m], i, t);
        assert m < k + 1;
      }
      if Tagged(more, i, t) {
        assert image(changes[k], i, t);
      }
    }
  }

  /** Different changes never tag the same position. */
  lemma ChangesApart(changes: Changes, m: nat, k: nat, i: int)
    requires Apart(changes) && m < k < |changes|
    ensures !(changes[m].range.Covers(i) && changes[k].range.Covers(i))
  {
    assert !changes[m].range.Overlaps(changes[k].range);
  }

  /** At most two pieces tag what the first or the second does. */
  lemma PiecesTag(ps: Changes, i: int, t: TrackingProps)
    requires |ps| <= 2
    ensures Tagged(ps, i, t) <==>
      (|ps| > 0 && ps[0].range.Covers(i) && ps[0].tracking == t) || (|ps| > 1 && ps[1].range.Covers(i) && ps[1].tracking == t)
  {
  }

  // ----- inserting -----

  predicate InsertImageAt(cursor: nat, n: nat, tc: TrackedChange, i: int, t: TrackingProps) {
    tc.tracking == t && (if i < cursor then tc.range.Covers(i) else cursor + n <= i && tc.range.Covers(i - n))
  }

  function InsertImage(cursor: nat, n: nat): Image {
    (tc: TrackedChange, i: int, t: TrackingProps) => InsertImageAt(cursor, n, tc, i, t)
  }

  function NonEmpty(tc: TrackedChange): Changes { if tc.range.IsEmpty() then [] else [tc] }

  function InsertPieces(tc: TrackedChange, cursor: nat, n: nat): Changes {
    if tc.range.StartIsAfter(cursor) || cursor == tc.range.Start() then [tc.(range := tc.range.MoveBy(n))]
    else if cursor == tc.range.End() then [tc]
    else if tc.range.ContainsCursor(cursor) then
      var parts := tc.range.InsertAt(cursor, n);
      NonEmpty(tc.(range := parts.0)) + NonEmpty(tc.(range := parts.2))
    else [tc]
  }

  lemma InsertPiecesFacts(tc: TrackedChange, cursor: nat, n: nat)
    requires tc.range.length > 0
    ensures var ps := InsertPieces(tc, cursor, n);
      Apart(ps) && forall i, t :: Tagged(ps, i, t) <==> InsertImage(cursor, n)(tc, i, t)
  {
    var ps := InsertPieces(tc, cursor, n);
    forall i, t ensures Tagged(ps, i, t) <==> InsertImage(cursor, n)(tc, i, t) {
      PiecesTag(ps, i, t);
    }
  }

  lemma InsertImagesApart(changes: Changes, k: nat, cursor: nat, n: nat)
    requires Apart(changes) && k < |changes|
    ensures forall i, t, u, m :: 0 <= m < k && InsertImage(cursor, n)(changes[m], i, t) ==>
      !InsertImage(cursor, n)(changes[k], i, u)
  {
    forall i, t: TrackingProps, u: TrackingProps, m | 0 <= m < k && InsertImage(cursor, n)(changes[m], i, t)
      ensures !InsertImage(cursor, n)(changes[k], i, u)
    {
      ChangesApart(changes, m, k, i);
      ChangesApart(changes, m, k, i - n);
    }
  }

  ghost predicate InsertedTag(before: Changes, cursor: nat, n: nat, props: Option<TrackingProps>, i: int, t: TrackingProps) {
    if i < cursor then Tagged(before, i, t)
    else if i < cursor + n then props == Some(t)
    else Tagged(before, i - n, t)
  }

  ghost predicate AfterInsert(before: Changes, after: Changes, cursor: nat, n: nat, props: Option<TrackingProps>) {
    Apart(after) && forall i, t :: Tagged(after, i, t) <==> InsertedTag(before, cursor, n, props, i, t)
  }

  lemma InsertTags(before: Changes, pieces: Changes, cursor: nat, n: nat, i: int, t: TrackingProps)
    requires ImagesSoFar(pieces, before, |before|, InsertImage(cursor, n))
    ensures Tagged(pieces, i, t) <==> InsertedTag(before, cursor, n, None, i, t)
  {
    if Tagged(pieces, i, t) {
      var m :| 0 <= m < |before| && m < |before| && InsertImage(cursor, n)(before[m], i, t);
      assert before[m].range.Covers(if i < cursor then i else i - n) && before[m].tracking == t;
    }
    if InsertedTag(before, cursor, n, None, i, t) {
      var m :| 0 <= m < |before| && before[m].range.Covers(if i < cursor then i else i - n) && before[m].tracking == t;
      assert InsertImage(cursor, n)(before[m], i, t);
    }
  }

  /** `_applyInsert`: a tracked insert tags its text; an untracked one splits what it lands in. */
  method ApplyInsert(changes: Changes, cursor: nat, n: nat, props: Option<TrackingProps>) returns (r: Changes)
    requires Apart(changes) && n > 0
    ensures AfterInsert(changes, r, cursor, n, props)
  {
    ghost var image := InsertImage(cursor, n);
    r := [];
    for k := 0 to |changes|
      invariant ImagesSoFar(r, changes, k, image)
    {
      InsertPiecesFacts(changes[k], cursor, n);
      InsertImagesApart(changes, k, cursor, n);
      NextImages(r, InsertPieces(changes[k], cursor, n), changes, k, image);
      r := r + InsertPieces(changes[k], cursor, n);
    }
    forall i, t ensures Tagged(r, i, t) <==> InsertedTag(changes, cursor, n, None, i, t) {
      InsertTags(changes, r, cursor, n, i, t);
    }
    if props.Some? {
      r := AddChange(r, TrackedChange(Range(cursor, n), props.value));
    }
  }

  /** Pushing a change onto a list that tags none of its positions. */
  method AddChange(changes: Changes, tc: TrackedChange) returns (r: Changes)
    requires Apart(changes) && tc.range.length > 0
    requires forall i, t :: tc.range.Covers(i) ==> !Tagged(changes, i, t)
    ensures r == changes + [tc] && Apart(r)
    ensures forall i, t :: Tagged(r, i, t) <==> if tc.range.Covers(i) then t == tc.tracking else Tagged(changes, i, t)
  {
    r := changes + [tc];
    forall i, t ensures Tagged([tc], i, t) <==> tc.range.Covers(i) && t == tc.tracking {
      PiecesTag([tc], i, t);
    }
    ApartConcat(changes, [tc]);
    forall i, t
      ensures Tagged(r, i, t) <==> if tc.range.Covers(i) then t == tc.tracking else Tagged(changes, i, t)
    {
      TaggedConcat(changes, [tc], i, t);
    }
  }

  // ----- deleting -----

  predicate DeleteImageAt(cursor: nat, n: nat, tc: TrackedChange, i: int, t: TrackingProps) {
    tc.tracking == t && tc.range.Covers(if i < cursor then i else i + n)
  }

  function DeleteImage(cursor: nat, n: nat): Image {
    (tc: TrackedChange, i: int, t: TrackingProps) => DeleteImageAt(cursor, n, tc, i, t)
  }

  function DeletePieces(tc: TrackedChange, deleted: Range): Changes {
    if deleted.Contains(tc.range) then []
    else if deleted.Overlaps(tc.range) then NonEmpty(tc.(range := tc.range.Subtract(deleted)))
    else if tc.range.StartIsAfter(deleted.pos) && deleted.length <= tc.range.pos then
      [tc.(range := tc.range.MoveBy(0 - deleted.length))]
    else [tc]
  }

  lemma DeletePiecesFacts(tc: TrackedChange, deleted: Range)
    requires tc.range.length > 0 && deleted.length > 0
    ensures var ps := DeletePieces(tc, deleted);
      Apart(ps) && forall i, t :: Tagged(ps, i, t) <==> DeleteImage(deleted.pos, deleted.length)(tc, i, t)
    ensures !deleted.Overlaps(tc.range) && tc.range.StartIsAfter(deleted.pos) ==> deleted.length <= tc.range.pos
  {
    var ps := DeletePieces(tc, deleted);
    forall i, t ensures Tagged(ps, i, t) <==> DeleteImage(deleted.pos, deleted.length)(tc, i, t) {
      PiecesTag(ps, i, t);
    }
  }

  lemma DeleteImagesApart(changes: Changes, k: nat, cursor: nat, n: nat)
    requires Apart(changes) && k < |changes|
    ensures forall i, t, u, m :: 0 <= m < k && DeleteImage(cursor, n)(changes[m], i, t) ==>
      !DeleteImage(cursor, n)(changes[k], i, u)
  {
    forall i, t: TrackingProps, u: TrackingProps, m | 0 <= m < k && DeleteImage(cursor, n)(changes[m], i, t)
      ensures !DeleteImage(cursor, n)(changes[k], i, u)
    {
      ChangesApart(changes, m, k, i);
      ChangesApart(changes, m, k, i + n);
    }
  }

  ghost predicate AfterDelete(before: Changes, after: Changes, cursor: nat, n: nat) {
    && Apart(after)
    && forall i, t :: Tagged(after, i, t) <==> Tagged(before, if i < cursor then i else i + n, t)
  }

  lemma DeleteTags(before: Changes, pieces: Changes, cursor: nat, n: nat, i: int, t: TrackingProps)
    requires ImagesSoFar(pieces, before, |before|, DeleteImage(cursor, n))
    ensures Tagged(pieces, i, t) <==> Tagged(before, if i < cursor then i else i + n, t)
  {
    var p := if i < cursor then i else i + n;
    if Tagged(pieces, i, t) {
      var m :| 0 <= m < |before| && m < |before| && DeleteImage(cursor, n)(before[m], i, t);
      assert before[m].range.Covers(p) && before[m].tracking == t;
    }
    if Tagged(before, p, t) {
      var m :| 0 <= m < |before| && before[m].range.Covers(p) && before[m].tracking == t;
      assert DeleteImage(cursor, n)(before[m], i, t);
    }
  }

  /** `_applyDelete`. */
  method ApplyDelete(changes: Changes, cursor: nat, n: nat) returns (r: Changes)
    requires Apart(changes) && n > 0
    ensures AfterDelete(changes, r, cursor, n)
  {
    ghost var image := DeleteImage(cursor, n);
    var deletedRange := Range(cursor, n);
    r := [];
    for k := 0 to |changes|
      invariant ImagesSoFar(r, changes, k, image)
    {
      DeletePiecesFacts(changes[k], deletedRange);
      DeleteImagesApart(changes, k, cursor, n);
      NextImages(r, DeletePieces(changes[k], deletedRange), changes, k, image);
      r := r + DeletePieces(changes[k], deletedRange);
    }
    forall i, t ensures Tagged(r, i, t) <==> Tagged(changes, if i < cursor then i else i + n, t) {
      DeleteTags(changes, r, cursor, n, i, t);
    }
  }

  // ----- retaining with a directive -----

  function RetainImage(cursor: nat, n: nat): Image {
    (tc: TrackedChange, i: int, t: TrackingProps) => tc.tracking == t && !(cursor <= i < cursor + n) && tc.range.Covers(i)
  }

  function RetainPieces(tc: TrackedChange, retained: Range): Changes {
    if retained.Contains(tc.range) then []
    else if retained.Overlaps(tc.range) then
      if tc.range.Contains(retained) then
        var parts := tc.range.SplitAt(retained.pos);
        NonEmpty(tc.(range := parts.0)) +
        (if !parts.1.IsEmpty() && parts.1.length > retained.length
         then [tc.(range := parts.1.MoveBy(retained.length).ShrinkBy(retained.length))] else [])
      else if retained.Start() <= tc.range.Start() then NonEmpty(tc.(range := tc.range.SplitAt(retained.End()).1))
      else NonEmpty(tc.(range := tc.range.SplitAt(retained.pos).0))
    else [tc]
  }

  lemma RetainPiecesFacts(tc: TrackedChange, retained: Range)
    requires tc.range.length > 0 && retained.length > 0
    ensures var ps := RetainPieces(tc, retained);
      Apart(ps) && forall i, t :: Tagged(ps, i, t) <==> RetainImage(retained.pos, retained.length)(tc, i, t)
  {
    var ps := RetainPieces(tc, retained);
    forall i, t ensures Tagged(ps, i, t) <==> RetainImage(retained.pos, retained.length)(tc, i, t) {
      PiecesTag(ps, i, t);
    }
  }

  ghost predicate RetainedTag(before: Changes, cursor: nat, n: nat, d: Directive, i: int, t: TrackingProps) {
    if cursor <= i < cursor + n && !d.Leave? then d == Assign(t) else Tagged(before, i, t)
  }

  ghost predicate AfterRetain(before: Changes, after: Changes, cursor: nat, n: nat, d: Directive) {
    Apart(after) && forall i, t :: Tagged(after, i, t) <==> RetainedTag(before, cursor, n, d, i, t)
  }

  lemma RetainTags(before: Changes, pieces: Changes, cursor: nat, n: nat, i: int, t: TrackingProps)
    requires ImagesSoFar(pieces, before, |before|, RetainImage(cursor, n))
    ensures Tagged(pieces, i, t) <==> !(cursor <= i < cursor + n) && Tagged(before, i, t)
  {
    if Tagged(pieces, i, t) {
      var m :| 0 <= m < |before| && m < |before| && RetainImage(cursor, n)(before[m], i, t);
      assert before[m].range.Covers(i) && before[m].tracking == t;
    }
    if !(cursor <= i < cursor + n) && Tagged(before, i, t) {
      var m :| 0 <= m < |before| && before[m].range.Covers(i) && before[m].tracking == t;
      assert RetainImage(cursor, n)(before[m], i, t);
    }
  }

  /** `_applyRetain`: without a directive everything is left as it is. */
  method ApplyRetain(changes: Changes, cursor: nat, n: nat, d: Directive) returns (r: Changes)
    requires Apart(changes) && n > 0
    ensures AfterRetain(changes, r, cursor, n, d)
  {
    if d.Leave? {
      return changes;
    }
    ghost var image := RetainImage(cursor, n);
    var retainedRange := Range(cursor, n);
    r := [];
    for k := 0 to |changes|
      invariant ImagesSoFar(r, changes, k, image)
    {
      RetainPiecesFacts(changes[k], retainedRange);
      forall i, t, u, m | 0 <= m < k && image(changes[m], i, t) ensures !image(changes[k], i, u) {
        ChangesApart(changes, m, k, i);
      }
      NextImages(r, RetainPieces(changes[k], retainedRange), changes, k, image);
      r := r + RetainPieces(changes[k], retainedRange);
    }
    forall i, t ensures Tagged(r, i, t) <==> !(cursor <= i < cursor + n) && Tagged(changes, i, t) {
      RetainTags(changes, r, cursor, n, i, t);
    }
    if d.Assign? {
      r := AddChange(r, TrackedChange(retainedRange, d.props));
    }
  }

  // ----- sorting and merging -----

  function InsertSorted(tc: TrackedChange, changes: Changes): Changes {
    if changes == [] then [tc]
    else if tc.range.Start() <= changes[0].range.Start() then [tc] + changes
    else [changes[0]] + InsertSorted(tc, changes[1..])
  }

  /** `sort((a, b) => a.range.start - b.range.start)`. */
  function SortByStart(changes: Changes): Changes {
    if changes == [] then [] else InsertSorted(changes[0], SortByStart(changes[1..]))
  }

  ghost predicate SortedByStart(changes: Changes) {
    forall j, k :: 0 <= j < k < |changes| ==> changes[j].range.Start() <= changes[k].range.Start()
  }

  /** A change that can join a list without disturbing it. */
  ghost predicate Joins(tc: TrackedChange, changes: Changes) {
    tc.range.length > 0 && forall k :: 0 <= k < |changes| ==> !tc.range.Overlaps(changes[k].range)
  }

  lemma {:induction false} InsertSortedElements(tc: TrackedChange, changes: Changes)
    ensures forall x :: x in InsertSorted(tc, changes) <==> x == tc || x in changes
    ensures |InsertSorted(tc, changes)| == |changes| + 1
  {
    if changes != [] && tc.range.Start() > changes[0].range.Start() {
      InsertSortedElements(tc, changes[1..]);
      assert changes == [changes[0]] + changes[1..];
    }
  }

  predicate Precedes(a: TrackedChange, b: TrackedChange) {
    a.range.Start() <= b.range.Start() && !a.range.Overlaps(b.range)
  }

  ghost predicate PrecedesAll(a: TrackedChange, changes: Changes) {
    forall k :: 0 <= k < |changes| ==> Precedes(a, changes[k])
  }

  lemma WithoutFirst(changes: Changes)
    requires Apart(changes) && SortedByStart(changes) && changes != []
    ensures Apart(changes[1..]) && SortedByStart(changes[1..])
    ensures changes[0].range.length > 0 && PrecedesAll(changes[0], changes[1..])
  {
    assert forall k :: 0 <= k < |changes[1..]| ==> changes[1..][k] == changes[k + 1];
  }

  lemma WithFirst(first: TrackedChange, changes: Changes)
    requires Apart(changes) && SortedByStart(changes) && first.range.length > 0 && PrecedesAll(first, changes)
    ensures Apart([first] + changes) && SortedByStart([first] + changes)
  {
    var all := [first] + changes;
    assert forall k :: 0 < k < |all| ==> all[k] == changes[k - 1];
    forall j, k | 0 <= j < k < |all| ensures Precedes(all[j], all[k]) {
      if j == 0 { assert Precedes(first, changes[k - 1]); } else { assert all[j] == changes[j - 1] && all[k] == changes[k - 1]; }
    }
  }

  lemma PrecedesInserted(first: TrackedChange, tc: TrackedChange, changes: Changes)
    requires Precedes(first, tc) && PrecedesAll(first, changes)
    ensures PrecedesAll(first, InsertSorted(tc, changes))
  {
    var all := InsertSorted(tc, changes);
    InsertSortedElements(tc, changes);
    hide InsertSorted, Precedes;
    forall k | 0 <= k < |all| ensures Precedes(first, all[k]) {
      assert all[k] in all;
      if all[k] != tc {
        var m :| 0 <= m < |changes| && changes[m] == all[k];
      }
    }
  }

  lemma {:induction false} InsertSortedKeeps(tc: TrackedChange, changes: Changes)
    requires Apart(changes) && SortedByStart(changes) && Joins(tc, changes)
    ensures Apart(InsertSorted(tc, changes)) && SortedByStart(InsertSorted(tc, changes))
  {
    if changes == [] {
    } else if tc.range.Start() <= changes[0].range.Start() {
      assert PrecedesAll(tc, changes);
      WithFirst(tc, changes);
    } else {
      WithoutFirst(changes);
      assert Joins(tc, changes[1..]) && Precedes(changes[0], tc);
      hide Apart, SortedByStart, Joins, PrecedesAll, Precedes;
      InsertSortedKeeps(tc, changes[1..]);
      PrecedesInserted(changes[0], tc, changes[1..]);
      WithFirst(changes[0], InsertSorted(tc, changes[1..]));
    }
  }

  lemma {:induction false} SortElements(changes: Changes)
    ensures forall x :: x in SortByStart(changes) <==> x in changes
    ensures |SortByStart(changes)| == |changes|
  {
    if changes != [] {
      SortElements(changes[1..]);
      InsertSortedElements(changes[0], SortByStart(changes[1..]));
      assert changes == [changes[0]] + changes[1..];
    }
  }

  lemma {:induction false} SortKeeps(changes: Changes)
    requires Apart(changes)
    ensures Apart(SortByStart(changes)) && SortedByStart(SortByStart(changes))
  {
    if changes != [] {
      var head, tail := changes[0], changes[1..];
      var rest := SortByStart(tail);
      assert forall k :: 0 <= k < |tail| ==> tail[k] == changes[k + 1];
      SortKeeps(tail);
      SortElements(tail);
      forall k | 0 <= k < |rest| ensures !head.range.Overlaps(rest[k].range) {
        assert rest[k] in rest;
        assert exists m :: 0 <= m < |tail| && tail[m] == rest[k];
      }
      InsertSortedKeeps(head, rest);
    }
  }

  lemma SameElementsSameTags(a: Changes, b: Changes, i: int, t: TrackingProps)
    requires forall x :: x in a <==> x in b
    ensures Tagged(a, i, t) <==> Tagged(b, i, t)
  {
    if Tagged(a, i, t) {
      var k :| 0 <= k < |a| && a[k].range.Covers(i) && a[k].tracking == t;
      assert a[k] in b;
    }
    if Tagged(b, i, t) {
      var k :| 0 <= k < |b| && b[k].range.Covers(i) && b[k].tracking == t;
      assert b[k] in a;
    }
  }

  /** Sorted, disjoint and with no two neighbours that could be one. */
  ghost predicate Compact(changes: Changes) {
    && Apart(changes) && SortedByStart(changes)
    && forall k :: 0 <= k < |changes| - 1 ==> !CanMerge(changes[k], changes[k + 1])
  }

  predicate CanMerge(a: TrackedChange, b: TrackedChange) {
    a.tracking == b.tracking && a.range.Touches(b.range) && a.range.CanMerge(b.range)
  }

  ghost predicate MergedSoFar(merged: Changes, seen: Changes) {
    && Compact(merged) && merged != [] && seen != []
    && Last(merged).range.End() == Last(seen).range.End()
    && (forall i, t :: Tagged(merged, i, t) <==> Tagged(seen, i, t))
  }

  lemma TaggedSnoc(changes: Changes, tc: TrackedChange)
    ensures forall i, t :: Tagged(changes + [tc], i, t) <==> Tagged(changes, i, t) || (tc.range.Covers(i) && tc.tracking == t)
  {
    forall i, t
      ensures Tagged(changes + [tc], i, t) <==> Tagged(changes, i, t) || (tc.range.Covers(i) && tc.tracking == t)
    {
      TaggedConcat(changes, [tc], i, t);
      PiecesTag([tc], i, t);
    }
  }

  /** In a sorted list of ranges that are apart each one ends before the next starts. */
  lemma SortedApart(changes: Changes, j: nat, k: nat)
    requires Apart(changes) && SortedByStart(changes) && j < k < |changes|
    ensures changes[j].range.End() <= changes[k].range.Start()
  {
    assert !changes[j].range.Overlaps(changes[k].range);
  }

  lemma MergeExtends(merged: Changes, seen: Changes, tc: TrackedChange)
    requires MergedSoFar(merged, seen) && tc.range.length > 0
    requires Last(merged).range.End() == tc.range.Start() && Last(merged).tracking == tc.tracking
    ensures MergedSoFar(Front(merged) + [TrackedChange(Last(merged).range.Merge(tc.range), tc.tracking)], seen + [tc])
  {
    var last, front := Last(merged), Front(merged);
    var joined := TrackedChange(last.range.Merge(tc.range), tc.tracking);
    assert merged == front + [last];
    TaggedSnoc(front, last);
    TaggedSnoc(front, joined);
    TaggedSnoc(seen, tc);
    FrontCompact(merged);
    CompactSnoc(front, joined);
  }

  lemma FrontCompact(merged: Changes)
    requires Compact(merged) && merged != []
    ensures Compact(Front(merged))
    ensures forall j :: 0 <= j < |merged| - 1 ==> Front(merged)[j].range.End() <= Last(merged).range.Start()
    ensures |merged| > 1 ==> !CanMerge(Last(Front(merged)), Last(merged))
  {
    forall j | 0 <= j < |merged| - 1 ensures Front(merged)[j].range.End() <= Last(merged).range.Start() {
      SortedApart(merged, j, |merged| - 1);
    }
  }

  lemma CompactSnoc(front: Changes, tc: TrackedChange)
    requires Compact(front) && tc.range.length > 0
    requires forall j :: 0 <= j < |front| ==> front[j].range.End() <= tc.range.Start()
    requires front != [] ==> !CanMerge(Last(front), tc)
    ensures Compact(front + [tc])
  {
  }

  lemma MergeAppends(merged: Changes, seen: Changes, tc: TrackedChange)
    requires MergedSoFar(merged, seen) && tc.range.length > 0
    requires Last(merged).range.End() <= tc.range.Start() && !CanMerge(Last(merged), tc)
    ensures MergedSoFar(merged + [tc], seen + [tc])
  {
    TaggedSnoc(merged, tc);
    TaggedSnoc(seen, tc);
    forall j | 0 <= j < |merged| ensures merged[j].range.End() <= tc.range.Start() {
      if j < |merged| - 1 {
        SortedApart(merged, j, |merged| - 1);
      }
    }
    CompactSnoc(merged, tc);
  }

  /** `_mergeRanges` never throws on a list whose ranges are apart, and keeps its tags. */
  method MergeRanges(changes: Changes) returns (r: Result<Changes, MergeError>)
    requires Apart(changes)
    ensures r.Ok? && Compact(r.value)
    ensures forall i, t :: Tagged(r.value, i, t) <==> Tagged(changes, i, t)
  {
    if |changes| < 2 {
      return Ok(changes);
    }
    var sorted := SortByStart(changes);
    SortElements(changes);
    SortKeeps(changes);
    var merged := [sorted[0]];
    assert sorted[..1] == merged;
    for k := 1 to |sorted|
      invariant MergedSoFar(merged, sorted[..k])
    {
      hide Compact, Apart, SortedByStart, InsertSorted, SortByStart, Tagged;
      var last, current := Last(merged), sorted[k];
      assert sorted[..k + 1] == sorted[..k] + [current] && Last(sorted[..k]) == sorted[k - 1];
      SortedApart(sorted, k - 1, k);
      if last.range.Overlaps(current.range) {
        return Err(RangesOverlap);
      }
      if current.range.IsEmpty() {
        return Err(EmptyRange);
      }
      if CanMerge(last, current) {
        MergeExtends(merged, sorted[..k], current);
        merged := Front(merged) + [TrackedChange(last.range.Merge(current.range), current.tracking)];
      } else {
        MergeAppends(merged, sorted[..k], current);
        merged := merged + [current];
      }
    }
    assert sorted[..|sorted|] == sorted;
    forall i, t ensures Tagged(merged, i, t) <==> Tagged(changes, i, t) {
      SameElementsSameTags(sorted, changes, i, t);
    }
    return Ok(merged);
  }

  // ----- whole text operations -----

  lemma InsertShows(before: Changes, after: Changes, left: Doc, text: Doc, right: Doc, props: Option<TrackingProps>)
    requires ShowsTracking(before, left + right)
    requires AfterInsert(before, after, |left|, |text|, props)
    requires forall i :: 0 <= i < |text| ==> text[i].tracking == props
    ensures ShowsTracking(after, left + text + right)
  {
    var doc, new', c, n := left + right, left + text + right, |left|, |text|;
    forall i, t ensures Tagged(after, i, t) <==> 0 <= i < |new'| && new'[i].tracking == Some(t) {
      assert Tagged(after, i, t) <==> InsertedTag(before, c, n, props, i, t);
      if i < c {
        assert 0 <= i ==> new'[i] == doc[i];
      } else if i >= c + n {
        assert i < |new'| ==> new'[i] == doc[i - n];
      }
    }
  }

  lemma DeleteShows(before: Changes, after: Changes, left: Doc, gone: Doc, right: Doc)
    requires ShowsTracking(before, left + gone + right)
    requires AfterDelete(before, after, |left|, |gone|)
    ensures ShowsTracking(after, left + right)
  {
    var doc, new', c, n := left + gone + right, left + right, |left|, |gone|;
    forall i, t ensures Tagged(after, i, t) <==> 0 <= i < |new'| && new'[i].tracking == Some(t) {
      assert Tagged(after, i, t) <==> Tagged(before, if i < c then i else i + n, t);
      if i < c {
        assert 0 <= i ==> new'[i] == doc[i];
      } else {
        assert i < |new'| ==> new'[i] == doc[i + n];
      }
    }
  }

  lemma RetainShows(before: Changes, after: Changes, left: Doc, kept: Doc, right: Doc, d: Directive)
    requires ShowsTracking(before, left + kept + right)
    requires AfterRetain(before, after, |left|, |kept|, d)
    ensures ShowsTracking(after, left + Piece(Retain(|kept|, d), kept) + right)
  {
    var doc, new', c, n := left + kept + right, left + Piece(Retain(|kept|, d), kept) + right, |left|, |kept|;
    forall i, t ensures Tagged(after, i, t) <==> 0 <= i < |new'| && new'[i].tracking == Some(t) {
      assert Tagged(after, i, t) <==> RetainedTag(before, c, n, d, i, t);
      if c <= i < c + n {
        assert new'[i] == Mark(doc[i], d);
      } else {
        assert 0 <= i < |new'| ==> new'[i] == doc[i];
      }
    }
  }

  /** One operation: the list follows the document as the cursor passes. */
  method ApplyOne(changes: Changes, op: ScanOp, cursor: nat, ghost left: Doc, ghost covered: Doc, ghost rest: Doc)
    returns (r: Changes, next: nat)
    requires |covered| == Span(op) && cursor == |left| && !IsZero(op)
    requires ShowsTracking(changes, left + covered + rest)
    ensures next == |left + Piece(op, covered)|
    ensures ShowsTracking(r, left + Piece(op, covered) + rest)
  {
    match op {
      case Insert(text, props, ids) =>
        r := ApplyInsert(changes, cursor, |text|, props);
        assert left + covered == left;
        InsertShows(changes, r, left, Typed(text, props, ids), rest, props);
        next := cursor + |text|;
      case Remove(n) =>
        r := ApplyDelete(changes, cursor, n);
        DeleteShows(changes, r, left, covered, rest);
        assert left + Piece(op, covered) == left;
        next := cursor;
      case Retain(n, d) =>
        r := ApplyRetain(changes, cursor, n, d);
        RetainShows(changes, r, left, covered, rest, d);
        next := cursor + n;
    }
  }

  /** The list and the cursor when the first i operations are applied. */
  ghost predicate Following(ops: seq<ScanOp>, i: nat, doc: Doc, changes: Changes, cursor: nat) {
    && Base(Atoms(ops)) == |doc| && i <= |ops|
    && cursor == |Halfway(ops, i, doc).0|
    && ShowsTracking(changes, Halfway(ops, i, doc).0 + Halfway(ops, i, doc).1)
  }

  method FollowOne(changes: Changes, cursor: nat, ops: seq<ScanOp>, i: nat, ghost doc: Doc)
    returns (r: Changes, next: nat)
    requires i < |ops| && Proper(ops) && Following(ops, i, doc, changes, cursor)
    ensures Following(ops, i + 1, doc, r, next)
  {
    ghost var done, todo, n := Halfway(ops, i, doc).0, Halfway(ops, i, doc).1, Span(ops[i]);
    HalfwayStep(ops, i, doc);
    ghost var covered, rest := todo[..n], todo[n..];
    assert done + todo == done + covered + rest;
    assert !IsZero(ops[i]);
    r, next := ApplyOne(changes, ops[i], cursor, done, covered, rest);
  }

  lemma FollowingEnds(ops: seq<ScanOp>, doc: Doc, changes: Changes, cursor: nat)
    requires Following(ops, |ops|, doc, changes, cursor)
    ensures ShowsTracking(changes, ApplyOps(ops, doc))
  {
    HalfwayEnds(ops, doc);
    assert ApplyOps(ops, doc) + [] == ApplyOps(ops, doc);
  }

  lemma FollowingStarts(ops: seq<ScanOp>, doc: Doc, changes: Changes)
    requires Base(Atoms(ops)) == |doc| && ShowsTracking(changes, doc)
    ensures Following(ops, 0, doc, changes, 0)
  {
    assert [] + doc == doc;
  }

  /**
    `applyTextOperation`: the list ends up in order, with nothing left to merge,
    and tags every character of the new document as the operation says. It never
    throws.
  */
  method ApplyTextOperation(changes: Changes, ops: seq<ScanOp>, ghost doc: Doc) returns (r: Result<Changes, MergeError>)
    requires Proper(ops) && Base(Atoms(ops)) == |doc| && ShowsTracking(changes, doc)
    ensures r.Ok? && Compact(r.value) && ShowsTracking(r.value, ApplyOps(ops, doc))
  {
    var current, cursor := changes, 0;
    FollowingStarts(ops, doc, changes);
    for i := 0 to |ops|
      invariant Following(ops, i, doc, current, cursor)
    {
      current, cursor := FollowOne(current, cursor, ops, i, doc);
    }
    FollowingEnds(ops, doc, current, cursor);
    r := MergeRanges(current);
  }
}
