/**
  Comment ranges (overleaf-editor-core: comment.js).

  A comment's ranges are a canonical list of intervals; what they mean is which
  positions they mark. Every method is proved to keep the list canonical and to
  change the marking exactly as the edit changes the text.
*/
module Comments {
  import opened Common
  import opened Ranges
  import opened TextModel
  import opened TextOperations

  datatype Comment = Comment(id: string, ranges: seq<Range>, resolved: bool)

  datatype CommentError = RangesOverlap | EmptyRange

  /** Some range covers position i. */
  ghost predicate Marked(ranges: seq<Range>, i: int) {
    exists k :: 0 <= k < |ranges| && ranges[k].Covers(i)
  }

  /** Sorted, not empty, and never touching. */
  ghost predicate Canonical(ranges: seq<Range>) {
    && (forall k :: 0 <= k < |ranges| ==> 0 < ranges[k].length)
    && (forall j, k :: 0 <= j < k < |ranges| ==> ranges[j].End() < ranges[k].Start())
  }

  /** Two ranges that `mergeRanges` refuses to see together. */
  predicate Clash(a: Range, b: Range) { !a.IsEmpty() && !b.IsEmpty() && a.Overlaps(b) }

  ghost predicate Clean(ranges: seq<Range>) {
    forall j, k :: 0 <= j < k < |ranges| ==> !Clash(ranges[j], ranges[k])
  }

  // ----- the canonical form is unique -----

  lemma MarkedTail(ranges: seq<Range>, i: int)
    requires Canonical(ranges) && ranges != []
    ensures Marked(ranges[1..], i) <==> Marked(ranges, i) && ranges[0].End() < i
    ensures ranges[0].End() == i ==> !Marked(ranges, i)
  {
    if Marked(ranges[1..], i) {
      var k :| 0 <= k < |ranges[1..]| && ranges[1..][k].Covers(i);
      assert ranges[k + 1].Covers(i);
    }
    if Marked(ranges, i) && ranges[0].End() <= i {
      var k :| 0 <= k < |ranges| && ranges[k].Covers(i);
      assert ranges[1..][k - 1].Covers(i);
    }
  }

  lemma FirstMarked(ranges: seq<Range>)
    requires Canonical(ranges) && ranges != []
    ensures forall i :: ranges[0].Start() <= i < ranges[0].End() ==> Marked(ranges, i)
    ensures forall i :: i < ranges[0].Start() ==> !Marked(ranges, i)
    ensures !Marked(ranges, ranges[0].End())
  {
    forall i | ranges[0].Start() <= i < ranges[0].End() ensures Marked(ranges, i) {
      assert ranges[0].Covers(i);
    }
    MarkedTail(ranges, ranges[0].End());
  }

  lemma SameFirst(a: seq<Range>, b: seq<Range>)
    requires Canonical(a) && Canonical(b) && a != [] && b != []
    requires forall i :: Marked(a, i) <==> Marked(b, i)
    ensures a[0] == b[0]
  {
    FirstMarked(a);
    FirstMarked(b);
    assert Marked(a, a[0].Start()) && Marked(b, b[0].Start());
    var e, f := a[0].End(), b[0].End();
    assert Marked(a, e) == Marked(b, e) && Marked(a, f) == Marked(b, f);
  }

  /** A marking has one canonical list of ranges. */
  lemma {:induction false} CanonicalUnique(a: seq<Range>, b: seq<Range>)
    requires Canonical(a) && Canonical(b)
    requires forall i :: Marked(a, i) <==> Marked(b, i)
    ensures a == b
    decreases |a|
  {
    assert a != [] ==> Marked(a, a[0].Start()) by { if a != [] { FirstMarked(a); } }
    assert b != [] ==> Marked(b, b[0].Start()) by { if b != [] { FirstMarked(b); } }
    if a != [] && b != [] {
      SameFirst(a, b);
      forall i ensures Marked(a[1..], i) <==> Marked(b[1..], i) {
        MarkedTail(a, i);
        MarkedTail(b, i);
      }
      CanonicalUnique(a[1..], b[1..]);
    }
  }

  // ----- sorting by start -----

  function InsertSorted(r: Range, ranges: seq<Range>): seq<Range> {
    if ranges == [] then [r]
    else if r.Start() <= ranges[0].Start() then [r] + ranges
    else [ranges[0]] + InsertSorted(r, ranges[1..])
  }

  /** `[...ranges].sort((a, b) => a.start - b.start)`. */
  function SortByStart(ranges: seq<Range>): seq<Range> {
    if ranges == [] then [] else InsertSorted(ranges[0], SortByStart(ranges[1..]))
  }

  ghost predicate SortedByStart(ranges: seq<Range>) {
    forall j, k :: 0 <= j < k < |ranges| ==> ranges[j].Start() <= ranges[k].Start()
  }

  lemma {:induction false} InsertSortedElements(r: Range, ranges: seq<Range>)
    ensures forall x :: x in InsertSorted(r, ranges) <==> x == r || x in ranges
  {
    if ranges != [] && r.Start() > ranges[0].Start() {
      InsertSortedElements(r, ranges[1..]);
      assert ranges == [ranges[0]] + ranges[1..];
    }
  }

  lemma {:induction false} InsertSortedSorted(r: Range, ranges: seq<Range>)
    requires SortedByStart(ranges)
    ensures SortedByStart(InsertSorted(r, ranges))
  {
    if ranges != [] && r.Start() > ranges[0].Start() {
      var head, tail := ranges[0], ranges[1..];
      InsertSortedSorted(r, tail);
      InsertSortedElements(r, tail);
      var rest := InsertSorted(r, tail);
      forall k | 0 <= k < |rest| ensures head.Start() <= rest[k].Start() {
        assert rest[k] in rest;
        assert rest[k] == r || exists m :: 0 <= m < |tail| && tail[m] == rest[k];
        assert forall m :: 0 <= m < |tail| ==> tail[m] == ranges[m + 1];
      }
    }
  }

  lemma {:induction false} InsertSortedClean(r: Range, ranges: seq<Range>)
    ensures Clean(InsertSorted(r, ranges)) <==> Clean(ranges) && forall x :: x in ranges ==> !Clash(r, x)
  {
    if ranges == [] {
    } else if r.Start() <= ranges[0].Start() {
      CleanCons(r, ranges);
    } else {
      var head, tail := ranges[0], ranges[1..];
      assert ranges == [head] + tail;
      InsertSortedClean(r, tail);
      InsertSortedElements(r, tail);
      CleanCons(head, tail);
      CleanCons(head, InsertSorted(r, tail));
      assert Clash(head, r) == Clash(r, head);
    }
  }

  lemma CleanCons(r: Range, ranges: seq<Range>)
    ensures Clean([r] + ranges) <==> Clean(ranges) && forall x :: x in ranges ==> !Clash(r, x)
  {
    var all := [r] + ranges;
    assert forall k :: 0 <= k < |ranges| ==> all[k + 1] == ranges[k];
    if Clean(all) {
      forall j, k | 0 <= j < k < |ranges| ensures !Clash(ranges[j], ranges[k]) {
        assert !Clash(all[j + 1], all[k + 1]);
      }
      forall x | x in ranges ensures !Clash(r, x) {
        var k :| 0 <= k < |ranges| && ranges[k] == x;
        assert !Clash(all[0], all[k + 1]);
      }
    }
    if Clean(ranges) && forall x :: x in ranges ==> !Clash(r, x) {
      forall j, k | 0 <= j < k < |all| ensures !Clash(all[j], all[k]) {
        assert all[k] == ranges[k - 1] && all[k] in ranges;
      }
    }
  }

  lemma {:induction false} SortFacts(ranges: seq<Range>)
    ensures SortedByStart(SortByStart(ranges))
    ensures forall x :: x in SortByStart(ranges) <==> x in ranges
    ensures Clean(SortByStart(ranges)) <==> Clean(ranges)
  {
    if ranges != [] {
      SortFacts(ranges[1..]);
      InsertSortedElements(ranges[0], SortByStart(ranges[1..]));
      InsertSortedSorted(ranges[0], SortByStart(ranges[1..]));
      InsertSortedClean(ranges[0], SortByStart(ranges[1..]));
      CleanCons(ranges[0], ranges[1..]);
      assert ranges == [ranges[0]] + ranges[1..];
    }
  }

  lemma SameElementsSameMarks(a: seq<Range>, b: seq<Range>, i: int)
    requires forall x :: x in a <==> x in b
    ensures Marked(a, i) <==> Marked(b, i)
  {
    if Marked(a, i) {
      var k :| 0 <= k < |a| && a[k].Covers(i);
      assert a[k] in b;
      var m :| 0 <= m < |b| && b[m] == a[k];
      assert b[m].Covers(i);
    }
    if Marked(b, i) {
      var k :| 0 <= k < |b| && b[k].Covers(i);
      assert b[k] in a;
      var m :| 0 <= m < |a| && a[m] == b[k];
      assert a[m].Covers(i);
    }
  }

  // ----- mergeRanges -----

  /** What the loop has made of the ranges it has seen. */
  ghost predicate MergedSoFar(merged: seq<Range>, seen: seq<Range>) {
    && Canonical(merged) && Clean(seen)
    && (forall i :: Marked(merged, i) <==> Marked(seen, i))
    && (forall k :: 0 <= k < |seen| ==> seen[k].IsEmpty() || (merged != [] && seen[k].End() <= Last(merged).End()))
    && (merged != [] ==> exists k :: 0 <= k < |seen| && seen[k].Start() == Last(merged).Start())
  }

  lemma MarkedSnoc(ranges: seq<Range>, r: Range)
    ensures forall i :: Marked(ranges + [r], i) <==> Marked(ranges, i) || r.Covers(i)
  {
    var all := ranges + [r];
    forall i ensures Marked(all, i) <==> Marked(ranges, i) || r.Covers(i) {
      if Marked(ranges, i) {
        var k :| 0 <= k < |ranges| && ranges[k].Covers(i);
        assert all[k].Covers(i);
      }
      if r.Covers(i) {
        assert all[|ranges|].Covers(i);
      }
    }
  }

  /** The last merged range speaks for everything seen so far. */
  lemma LastDecides(merged: seq<Range>, seen: seq<Range>, r: Range)
    requires MergedSoFar(merged, seen) && !r.IsEmpty()
    requires forall k :: 0 <= k < |seen| ==> seen[k].Start() <= r.Start()
    ensures (exists k :: 0 <= k < |seen| && Clash(seen[k], r)) <==> merged != [] && Last(merged).Overlaps(r)
    ensures merged != [] ==> Last(merged).Start() <= r.Start()
  {
    if merged != [] {
      var last := Last(merged);
      var k :| 0 <= k < |seen| && seen[k].Start() == last.Start();
      assert merged[|merged| - 1].Covers(last.Start());
      if last.Overlaps(r) {
        assert merged[|merged| - 1].Covers(r.Start());
        assert Marked(merged, r.Start());
        var m :| 0 <= m < |seen| && seen[m].Covers(r.Start());
        assert Clash(seen[m], r);
      }
    }
  }

  lemma MergeExtends(merged: seq<Range>, seen: seq<Range>, r: Range)
    requires MergedSoFar(merged, seen) && merged != [] && !r.IsEmpty()
    requires Last(merged).End() == r.Start()
    requires forall k :: 0 <= k < |seen| ==> !Clash(seen[k], r)
    ensures MergedSoFar(Front(merged) + [Last(merged).Merge(r)], seen + [r])
  {
    var last, joined := Last(merged), Last(merged).Merge(r);
    assert merged == Front(merged) + [last];
    MarkedSnoc(Front(merged), last);
    MarkedSnoc(Front(merged), joined);
    MarkedSnoc(seen, r);
    var k :| 0 <= k < |seen| && seen[k].Start() == last.Start();
    assert (seen + [r])[k].Start() == joined.Start();
  }

  lemma MergeAppends(merged: seq<Range>, seen: seq<Range>, r: Range)
    requires MergedSoFar(merged, seen) && !r.IsEmpty()
    requires merged != [] ==> Last(merged).End() < r.Start()
    requires forall k :: 0 <= k < |seen| ==> !Clash(seen[k], r)
    ensures MergedSoFar(merged + [r], seen + [r])
  {
    MarkedSnoc(merged, r);
    MarkedSnoc(seen, r);
    assert (seen + [r])[|seen|].Start() == r.Start();
  }

  lemma MergeSkips(merged: seq<Range>, seen: seq<Range>, r: Range)
    requires MergedSoFar(merged, seen) && r.IsEmpty()
    ensures MergedSoFar(merged, seen + [r])
  {
    MarkedSnoc(seen, r);
    if merged != [] {
      var k :| 0 <= k < |seen| && seen[k].Start() == Last(merged).Start();
      assert (seen + [r])[k].Start() == Last(merged).Start();
    }
  }

  ghost predicate StartsLast(r: Range, seen: seq<Range>) {
    forall k :: 0 <= k < |seen| ==> seen[k].Start() <= r.Start()
  }

  ghost predicate ClashesWithSeen(seen: seq<Range>, r: Range) {
    exists k :: 0 <= k < |seen| && Clash(seen[k], r)
  }

  /** One turn of the loop, for the next range in order of starts. */
  method MergeNext(merged: seq<Range>, range: Range, ghost seen: seq<Range>) returns (r: Result<seq<Range>, CommentError>)
    requires MergedSoFar(merged, seen) && StartsLast(range, seen)
    ensures r.Ok? ==> MergedSoFar(r.value, seen + [range])
    ensures r.Err? ==> r.error == RangesOverlap && ClashesWithSeen(seen, range)
  {
    if range.IsEmpty() {
      MergeSkips(merged, seen, range);
      return Ok(merged);
    }
    LastDecides(merged, seen, range);
    if merged != [] && Last(merged).Overlaps(range) {
      return Err(RangesOverlap);
    }
    if merged != [] && Last(merged).CanMerge(range) {
      MergeExtends(merged, seen, range);
      return Ok(Front(merged) + [Last(merged).Merge(range)]);
    }
    MergeAppends(merged, seen, range);
    return Ok(merged + [range]);
  }

  /**
    Throws exactly when two of the given ranges overlap, in whatever order they
    are given; otherwise the result is the canonical list with the same marks.
  */
  method MergeRanges(ranges: seq<Range>) returns (r: Result<seq<Range>, CommentError>)
    ensures r.Ok? <==> Clean(ranges)
    ensures r.Ok? ==> Canonical(r.value) && forall i :: Marked(r.value, i) <==> Marked(ranges, i)
    ensures r.Err? ==> r.error == RangesOverlap
  {
    var mergedRanges: seq<Range> := [];
    var sortedRanges := SortByStart(ranges);
    for k := 0 to |sortedRanges|
      invariant MergedSoFar(mergedRanges, sortedRanges[..k])
    {
      NextInOrder(ranges, k);
      var next := MergeNext(mergedRanges, sortedRanges[k], sortedRanges[..k]);
      if next.Err? {
        ClashRefutesClean(ranges, k);
        return Err(next.error);
      }
      mergedRanges := next.value;
    }
    assert sortedRanges[..|sortedRanges|] == sortedRanges;
    AllMerged(ranges, mergedRanges);
    return Ok(mergedRanges);
  }

  lemma NextInOrder(ranges: seq<Range>, k: nat)
    requires k < |SortByStart(ranges)|
    ensures var s := SortByStart(ranges); StartsLast(s[k], s[..k]) && s[..k + 1] == s[..k] + [s[k]]
  {
    SortFacts(ranges);
  }

  lemma ClashRefutesClean(ranges: seq<Range>, k: nat)
    requires k < |SortByStart(ranges)| && ClashesWithSeen(SortByStart(ranges)[..k], SortByStart(ranges)[k])
    ensures !Clean(ranges)
  {
    SortFacts(ranges);
    var s := SortByStart(ranges);
    var j :| 0 <= j < k && Clash(s[..k][j], s[k]);
    assert Clash(s[j], s[k]);
  }

  lemma AllMerged(ranges: seq<Range>, merged: seq<Range>)
    requires MergedSoFar(merged, SortByStart(ranges))
    ensures Clean(ranges) && Canonical(merged) && forall i :: Marked(merged, i) <==> Marked(ranges, i)
  {
    SortFacts(ranges);
    SameMarks(SortByStart(ranges), merged, ranges);
  }

  lemma SameMarks(sorted: seq<Range>, merged: seq<Range>, ranges: seq<Range>)
    requires MergedSoFar(merged, sorted) && forall x :: x in sorted <==> x in ranges
    ensures forall i :: Marked(merged, i) <==> Marked(ranges, i)
  {
    forall i ensures Marked(merged, i) <==> Marked(ranges, i) {
      SameElementsSameMarks(sorted, ranges, i);
    }
  }

  /** The constructor: the given ranges, merged. */
  method NewComment(id: string, ranges: seq<Range>, resolved: bool) returns (r: Result<Comment, CommentError>)
    ensures r.Ok? <==> Clean(ranges)
    ensures r.Ok? ==> r.value.id == id && r.value.resolved == resolved && Canonical(r.value.ranges)
    ensures r.Ok? ==> forall i :: Marked(r.value.ranges, i) <==> Marked(ranges, i)
  {
    var merged := MergeRanges(ranges);
    match merged
    case Ok(m) => return Ok(Comment(id, m, resolved));
    case Err(e) => return Err(e);
  }

  // ----- inserting -----

  /** The marking after n characters were inserted at the cursor. */
  ghost predicate InsertedMark(ranges: seq<Range>, cursor: nat, n: nat, extend: bool, i: int) {
    if i < cursor then Marked(ranges, i)
    else if i < cursor + n then extend
    else Marked(ranges, i - n)
  }

  ghost predicate AfterInsert(before: seq<Range>, after: seq<Range>, cursor: nat, n: nat, extend: bool) {
    Canonical(after) && forall i :: Marked(after, i) <==> InsertedMark(before, cursor, n, extend, i)
  }

  /** Which positions one range accounts for after the insert. */
  predicate InsertImage(r: Range, cursor: nat, n: nat, extend: bool, i: int) {
    if i < cursor then r.Covers(i)
    else if i < cursor + n then extend && r.ContainsCursor(cursor)
    else r.Covers(i - n)
  }

  /** The ranges that replace one range. */
  function InsertPieces(r: Range, cursor: nat, n: nat, extend: bool): seq<Range> {
    if cursor == r.End() then [if extend then r.ExtendBy(n) else r]
    else if cursor == r.Start() then [if extend then r.ExtendBy(n) else r.MoveBy(n)]
    else if r.StartIsAfter(cursor) then [r.MoveBy(n)]
    else if r.ContainsCursor(cursor) then
      if extend then [r.ExtendBy(n)]
      else
        var parts := r.InsertAt(cursor, n);
        [Range(r.pos, parts.0.length), parts.2]
    else [r]
  }

  lemma InsertPiecesFacts(r: Range, cursor: nat, n: nat, extend: bool)
    requires r.length > 0
    ensures var ps := InsertPieces(r, cursor, n, extend);
      && Clean(ps) && (forall i :: Marked(ps, i) <==> InsertImage(r, cursor, n, extend, i))
  {
    var ps := InsertPieces(r, cursor, n, extend);
    forall i ensures Marked(ps, i) <==> InsertImage(r, cursor, n, extend, i) {
      assert |ps| == 1 || |ps| == 2;
      assert ps[0].Covers(i) ==> Marked(ps, i);
      assert |ps| == 2 && ps[1].Covers(i) ==> Marked(ps, i);
    }
  }

  /** Where the pieces of the first k ranges are. */
  ghost predicate ImagesSoFar(pieces: seq<Range>, ranges: seq<Range>, k: nat, image: (Range, int) -> bool) {
    && Clean(pieces)
    && forall i :: Marked(pieces, i) <==> exists m :: 0 <= m < k && m < |ranges| && image(ranges[m], i)
  }

  lemma MarkedConcat(a: seq<Range>, b: seq<Range>, i: int)
    ensures Marked(a + b, i) <==> Marked(a, i) || Marked(b, i)
  {
    if Marked(a, i) {
      var k :| 0 <= k < |a| && a[k].Covers(i);
      assert (a + b)[k].Covers(i);
    }
    if Marked(b, i) {
      var k :| 0 <= k < |b| && b[k].Covers(i);
      assert (a + b)[|a| + k].Covers(i);
    }
  }

  /** Overlapping means having a position in common. */
  lemma CleanConcat(a: seq<Range>, b: seq<Range>)
    requires Clean(a) && Clean(b)
    requires forall i :: !(Marked(a, i) && Marked(b, i))
    ensures Clean(a + b)
  {
    forall j, k | 0 <= j < k < |a + b| ensures !Clash((a + b)[j], (a + b)[k]) {
      if j < |a| <= k {
        var x, y := a[j], b[k - |a|];
        var common := Max(x.Start(), y.Start());
        assert !(Marked(a, common) && Marked(b, common));
        assert x.Covers(common) ==> Marked(a, common);
        assert y.Covers(common) ==> Marked(b, common);
      }
    }
  }

  lemma NextImages(pieces: seq<Range>, more: seq<Range>, ranges: seq<Range>, k: nat, image: (Range, int) -> bool)
    requires ImagesSoFar(pieces, ranges, k, image) && k < |ranges|
    requires Clean(more) && forall i :: Marked(more, i) <==> image(ranges[k], i)
    requires forall i, m :: 0 <= m < k && image(ranges[m], i) ==> !image(ranges[k], i)
    ensures ImagesSoFar(pieces + more, ranges, k + 1, image)
  {
    CleanConcat(pieces, more);
    forall i ensures Marked(pieces + more, i) <==> exists m :: 0 <= m < k + 1 && m < |ranges| && image(ranges[m], i) {
      MarkedConcat(pieces, more, i);
      if Marked(pieces, i) {
        var m :| 0 <= m < k && m < |ranges| && image(ranges[m], i);
        assert m < k + 1;
      }
      if Marked(more, i) {
        assert image(ranges[k], i);
      }
    }
  }

  lemma InsertImagesApart(ranges: seq<Range>, k: nat, cursor: nat, n: nat, extend: bool)
    requires Canonical(ranges) && k < |ranges|
    ensures forall i, m :: 0 <= m < k && InsertImage(ranges[m], cursor, n, extend, i) ==>
      !InsertImage(ranges[k], cursor, n, extend, i)
  {
    forall i, m | 0 <= m < k && InsertImage(ranges[m], cursor, n, extend, i)
      ensures !InsertImage(ranges[k], cursor, n, extend, i)
    {
      assert ranges[m].End() < ranges[k].Start();
    }
  }

  /** Inserted text is marked exactly when the insert extends the comment; nothing throws. */
  method ApplyInsert(comment: Comment, cursor: nat, n: nat, extendComment: bool) returns (r: Result<Comment, CommentError>)
    requires Canonical(comment.ranges)
    ensures r.Ok? && r.value.id == comment.id && r.value.resolved == comment.resolved
    ensures AfterInsert(comment.ranges, r.value.ranges, cursor, n, extendComment)
  {
    var ranges := comment.ranges;
    ghost var image := (r: Range, i: int) => InsertImage(r, cursor, n, extendComment, i);
    var existingRangeExtended := false;
    var newRanges: seq<Range> := [];
    for k := 0 to |ranges|
      invariant ImagesSoFar(newRanges, ranges, k, image)
      invariant existingRangeExtended <==> extendComment && exists m :: 0 <= m < k && ranges[m].ContainsCursor(cursor)
    {
      var commentRange := ranges[k];
      InsertPiecesFacts(commentRange, cursor, n, extendComment);
      InsertImagesApart(ranges, k, cursor, n, extendComment);
      NextImages(newRanges, InsertPieces(commentRange, cursor, n, extendComment), ranges, k, image);
      newRanges := newRanges + InsertPieces(commentRange, cursor, n, extendComment);
      if extendComment && commentRange.ContainsCursor(cursor) {
        existingRangeExtended := true;
      }
    }
    ghost var touched := exists m :: 0 <= m < |ranges| && ranges[m].ContainsCursor(cursor);
    forall i ensures Marked(newRanges, i) <==>
      if cursor <= i < cursor + n then extendComment && touched else InsertedMark(ranges, cursor, n, extendComment, i)
    {
    }
    if extendComment && !existingRangeExtended {
      var added := Range(cursor, n);
      MarkedSnoc([], added);
      assert [] + [added] == [added];
      CleanConcat(newRanges, [added]);
      MarkedSnoc(newRanges, added);
      newRanges := newRanges + [added];
    }
    r := NewComment(comment.id, newRanges, comment.resolved);
  }

  // ----- deleting -----

  ghost predicate DeletedMark(ranges: seq<Range>, pos: nat, n: nat, i: int) {
    if i < pos then Marked(ranges, i) else Marked(ranges, i + n)
  }

  ghost predicate AfterDelete(before: seq<Range>, after: seq<Range>, pos: nat, n: nat) {
    Canonical(after) && forall i :: Marked(after, i) <==> DeletedMark(before, pos, n, i)
  }

  predicate DeleteImage(r: Range, pos: nat, n: nat, i: int) {
    if i < pos then r.Covers(i) else r.Covers(i + n)
  }

  function DeletePiece(r: Range, deleted: Range): Range {
    if r.Overlaps(deleted) then r.Subtract(deleted)
    else if r.StartsAfter(deleted) then r.MoveBy(0 - deleted.length)
    else r
  }

  lemma DeletePieceFacts(r: Range, deleted: Range)
    requires r.length > 0
    ensures forall i :: Marked([DeletePiece(r, deleted)], i) <==> DeleteImage(r, deleted.pos, deleted.length, i)
  {
    var p := DeletePiece(r, deleted);
    assert [] + [p] == [p];
    MarkedSnoc([], p);
    forall i ensures p.Covers(i) <==> DeleteImage(r, deleted.pos, deleted.length, i) {
    }
  }

  lemma DeleteImagesApart(ranges: seq<Range>, k: nat, pos: nat, n: nat)
    requires Canonical(ranges) && k < |ranges|
    ensures forall i, m :: 0 <= m < k && DeleteImage(ranges[m], pos, n, i) ==> !DeleteImage(ranges[k], pos, n, i)
  {
    forall i, m | 0 <= m < k && DeleteImage(ranges[m], pos, n, i) ensures !DeleteImage(ranges[k], pos, n, i) {
      assert ranges[m].End() < ranges[k].Start();
    }
  }

  /** Deleted positions vanish, later ones move up; nothing throws. */
  method ApplyDelete(comment: Comment, deletedRange: Range) returns (r: Result<Comment, CommentError>)
    requires Canonical(comment.ranges)
    ensures r.Ok? && r.value.id == comment.id && r.value.resolved == comment.resolved
    ensures AfterDelete(comment.ranges, r.value.ranges, deletedRange.pos, deletedRange.length)
  {
    var ranges := comment.ranges;
    ghost var image := (r: Range, i: int) => DeleteImage(r, deletedRange.pos, deletedRange.length, i);
    var newRanges: seq<Range> := [];
    for k := 0 to |ranges|
      invariant ImagesSoFar(newRanges, ranges, k, image)
    {
      var commentRange := ranges[k];
      DeletePieceFacts(commentRange, deletedRange);
      DeleteImagesApart(ranges, k, deletedRange.pos, deletedRange.length);
      NextImages(newRanges, [DeletePiece(commentRange, deletedRange)], ranges, k, image);
      newRanges := newRanges + [DeletePiece(commentRange, deletedRange)];
    }
    forall i ensures Marked(newRanges, i) <==> DeletedMark(ranges, deletedRange.pos, deletedRange.length, i) {
    }
    r := NewComment(comment.id, newRanges, comment.resolved);
  }

  /**
    Inserting and then removing what follows, or removing it first and then
    inserting, leaves the very same ranges: the builder may swap the two.
  */
  lemma InsertAndRemoveCommute(start: seq<Range>, inserted: seq<Range>, a: seq<Range>, removed: seq<Range>, b: seq<Range>,
                               cursor: nat, n: nat, extend: bool, m: nat)
    requires AfterInsert(start, inserted, cursor, n, extend) && AfterDelete(inserted, a, cursor + n, m)
    requires AfterDelete(start, removed, cursor, m) && AfterInsert(removed, b, cursor, n, extend)
    ensures a == b
  {
    forall i ensures Marked(a, i) <==> Marked(b, i) {
      assert Marked(a, i) <==> Marked(inserted, if i < cursor + n then i else i + m);
      assert i < cursor ==> (Marked(removed, i) <==> Marked(start, i));
      assert i >= cursor + n ==> (Marked(removed, i - n) <==> Marked(start, i - n + m));
    }
    CanonicalUnique(a, b);
  }

  // ----- whole text operations -----

  /** The ranges are the marks of comment `id` in the document. */
  ghost predicate ShowsComment(ranges: seq<Range>, doc: Doc, id: string) {
    && Canonical(ranges)
    && forall i {:trigger Marked(ranges, i)} :: Marked(ranges, i) <==> 0 <= i < |doc| && id in doc[i].comments
  }

  lemma InsertShows(before: seq<Range>, after: seq<Range>, left: Doc, text: Doc, right: Doc, id: string, extend: bool)
    requires ShowsComment(before, left + right, id)
    requires AfterInsert(before, after, |left|, |text|, extend)
    requires forall i :: 0 <= i < |text| ==> (id in text[i].comments <==> extend)
    ensures ShowsComment(after, left + text + right, id)
  {
    var doc, new' := left + right, left + text + right;
    var c, n := |left|, |text|;
    forall i ensures Marked(after, i) <==> 0 <= i < |new'| && id in new'[i].comments {
      assert Marked(after, i) <==> InsertedMark(before, c, n, extend, i);
      if i < c {
        assert 0 <= i ==> new'[i] == doc[i];
      } else if i >= c + n {
        assert i < |new'| ==> new'[i] == doc[i - n];
      }
    }
  }

  lemma DeleteShows(before: seq<Range>, after: seq<Range>, left: Doc, gone: Doc, right: Doc, id: string)
    requires ShowsComment(before, left + gone + right, id)
    requires AfterDelete(before, after, |left|, |gone|)
    ensures ShowsComment(after, left + right, id)
  {
    var doc, new' := left + gone + right, left + right;
    var c, n := |left|, |gone|;
    forall i ensures Marked(after, i) <==> 0 <= i < |new'| && id in new'[i].comments {
      assert Marked(after, i) <==> DeletedMark(before, c, n, i);
      if i < c {
        assert 0 <= i ==> new'[i] == doc[i];
      } else {
        assert i < |new'| ==> new'[i] == doc[i + n];
      }
    }
  }

  lemma RetainShows(ranges: seq<Range>, left: Doc, kept: Doc, right: Doc, d: Directive, id: string)
    requires ShowsComment(ranges, left + kept + right, id)
    ensures ShowsComment(ranges, left + Piece(Retain(|kept|, d), kept) + right, id)
  {
    var doc, new' := left + kept + right, left + Piece(Retain(|kept|, d), kept) + right;
    assert forall i :: 0 <= i < |doc| ==> doc[i].comments == new'[i].comments;
  }

  /** One operation: the comment follows the document as the cursor passes. */
  method ApplyOne(comment: Comment, op: ScanOp, commentId: string, cursor: nat, ghost left: Doc, ghost covered: Doc,
                  ghost rest: Doc) returns (r: Result<Comment, CommentError>, next: nat)
    requires |covered| == Span(op) && cursor == |left|
    requires ShowsComment(comment.ranges, left + covered + rest, commentId)
    ensures r.Ok? && r.value.id == comment.id && r.value.resolved == comment.resolved
    ensures next == |left + Piece(op, covered)|
    ensures ShowsComment(r.value.ranges, left + Piece(op, covered) + rest, commentId)
  {
    match op {
      case Retain(n, d) =>
        RetainShows(comment.ranges, left, covered, rest, d, commentId);
        r, next := Ok(comment), cursor + n;
      case Insert(text, props, ids) =>
        r := ApplyInsert(comment, cursor, |text|, commentId in IdSet(ids));
        assert left + covered == left;
        InsertShows(comment.ranges, r.value.ranges, left, Typed(text, props, ids), rest, commentId,
          commentId in IdSet(ids));
        next := cursor + |text|;
      case Remove(n) =>
        r := ApplyDelete(comment, Range(cursor, n));
        DeleteShows(comment.ranges, r.value.ranges, left, covered, rest, commentId);
        assert left + Piece(op, covered) == left;
        next := cursor;
    }
  }

  /** The comment and the cursor when the first i operations are applied. */
  ghost predicate Following(ops: seq<ScanOp>, i: nat, doc: Doc, commentId: string, ranges: seq<Range>, cursor: nat) {
    && Base(Atoms(ops)) == |doc| && i <= |ops|
    && cursor == |Halfway(ops, i, doc).0|
    && ShowsComment(ranges, Halfway(ops, i, doc).0 + Halfway(ops, i, doc).1, commentId)
  }

  method FollowOne(comment: Comment, cursor: nat, ops: seq<ScanOp>, i: nat, commentId: string, ghost doc: Doc)
    returns (r: Result<Comment, CommentError>, next: nat)
    requires i < |ops| && Following(ops, i, doc, commentId, comment.ranges, cursor)
    ensures r.Ok? && r.value.id == comment.id && r.value.resolved == comment.resolved
    ensures Following(ops, i + 1, doc, commentId, r.value.ranges, next)
  {
    ghost var done, todo, n := Halfway(ops, i, doc).0, Halfway(ops, i, doc).1, Span(ops[i]);
    HalfwayStep(ops, i, doc);
    ghost var covered, rest := todo[..n], todo[n..];
    assert done + todo == done + covered + rest;
    r, next := ApplyOne(comment, ops[i], commentId, cursor, done, covered, rest);
  }

  lemma FollowingStarts(ops: seq<ScanOp>, doc: Doc, commentId: string, ranges: seq<Range>)
    requires Base(Atoms(ops)) == |doc| && ShowsComment(ranges, doc, commentId)
    ensures Following(ops, 0, doc, commentId, ranges, 0)
  {
    assert [] + doc == doc;
  }

  lemma FollowingEnds(ops: seq<ScanOp>, doc: Doc, commentId: string, ranges: seq<Range>, cursor: nat)
    requires Following(ops, |ops|, doc, commentId, ranges, cursor)
    ensures ShowsComment(ranges, ApplyOps(ops, doc), commentId)
  {
    HalfwayEnds(ops, doc);
    assert ApplyOps(ops, doc) + [] == ApplyOps(ops, doc);
  }

  /**
    Applying a text operation to a comment agrees with the marks it leaves in the
    document: surviving characters keep theirs, removed ones take theirs along,
    and inserted ones are marked exactly when the insert carries the comment's id.
  */
  method ApplyTextOperation(comment: Comment, ops: seq<ScanOp>, commentId: string, ghost doc: Doc)
    returns (r: Result<Comment, CommentError>)
    requires Base(Atoms(ops)) == |doc| && ShowsComment(comment.ranges, doc, commentId)
    ensures r.Ok? && r.value.id == comment.id && r.value.resolved == comment.resolved
    ensures ShowsComment(r.value.ranges, ApplyOps(ops, doc), commentId)
  {
    r := Ok(comment);
    var cursor := 0;
    FollowingStarts(ops, doc, commentId, comment.ranges);
    for i := 0 to |ops|
      invariant r.Ok? && r.value.id == comment.id && r.value.resolved == comment.resolved
      invariant Following(ops, i, doc, commentId, r.value.ranges, cursor)
    {
      r, cursor := FollowOne(r.value, cursor, ops, i, commentId, doc);
    }
    FollowingEnds(ops, doc, commentId, r.value.ranges, cursor);
  }
}
