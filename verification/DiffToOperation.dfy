/**
  Turning a diff into a text operation under tracked changes
  (overleaf-editor-core: diff_as_text_operation.js lines 44-169).

  `Reading` is the plain, one-character-at-a-time account of what the operation
  should do. The method walks two cursors over segments and ranges; it is proved
  to build an operation with exactly that effect.
*/
module DiffToOperation {
  import opened Common
  import opened TextModel
  import opened TextOperations
  import opened TrackedFile

  datatype Kind = Added | Removed | Unchanged

  datatype Diff = Diff(kind: Kind, text: string)

  datatype OutOfSync = OutOfSync

  /** The text the diff was computed from: its unchanged and removed pieces. */
  function OldText(diffs: seq<Diff>): string {
    if diffs == [] then ""
    else (if diffs[0].kind.Added? then "" else diffs[0].text) + OldText(diffs[1..])
  }

  /** The text the diff leads to: its unchanged and added pieces. */
  function NewText(diffs: seq<Diff>): string {
    if diffs == [] then ""
    else (if diffs[0].kind.Removed? then "" else diffs[0].text) + NewText(diffs[1..])
  }

  function InsertProps(author: Option<string>): Option<TrackingProps> {
    if author.Some? then Some(TrackingProps(TrackedInsert, author.value)) else None
  }

  /** What happens to one visible character of a removed or unchanged segment. */
  function Fate(kind: Kind, track: Option<TrackingProps>, author: Option<string>): Atom {
    if !kind.Removed? then Keep(Leave)
    else if author.Some? && !Proposed(track) then Keep(Assign(TrackingProps(TrackedDelete, author.value)))
    else Drop
  }

  /** Where a segment of n visible characters starting at b ends. */
  function SegmentEnd(tracks: Tracks, b: nat, n: nat): (e: nat)
    requires b <= |tracks|
    ensures b <= e <= |tracks|
    decreases |tracks| - b
  {
    if n == 0 || b == |tracks| then b
    else SegmentEnd(tracks, b + 1, if Hidden(tracks[b]) then n else n - 1)
  }

  /** A segment, one character at a time; tracked deletes are stepped over. */
  function Segment(tracks: Tracks, b: nat, kind: Kind, n: nat, author: Option<string>): seq<Atom>
    requires b <= |tracks|
    decreases |tracks| - b
  {
    if n == 0 || b == |tracks| then []
    else if Hidden(tracks[b]) then [Keep(Leave)] + Segment(tracks, b + 1, kind, n, author)
    else [Fate(kind, tracks[b], author)] + Segment(tracks, b + 1, kind, n - 1, author)
  }

  /** The whole operation, one character at a time. */
  function Reading(tracks: Tracks, b: nat, diffs: seq<Diff>, author: Option<string>): seq<Atom>
    requires b <= |tracks|
    decreases |diffs|, 0
  {
    if diffs == [] then Repeat(Keep(Leave), |tracks| - b)
    else if diffs[0].kind.Added? then
      Adds(Typed(diffs[0].text, InsertProps(author), None)) + Reading(tracks, b, diffs[1..], author)
    else Pending(tracks, b, diffs[0].kind, |diffs[0].text|, diffs[1..], author)
  }

  /** The rest of a segment of which n characters are left, then the rest of the diff. */
  function Pending(tracks: Tracks, b: nat, kind: Kind, n: nat, rest: seq<Diff>, author: Option<string>): seq<Atom>
    requires b <= |tracks|
    decreases |rest|, 1
  {
    Segment(tracks, b, kind, n, author) + Reading(tracks, SegmentEnd(tracks, b, n), rest, author)
  }

  // ----- runs of characters with the same fate -----

  lemma OneMore(u: Atom, m: nat, rest: seq<Atom>)
    requires m > 0
    ensures [u] + (Repeat(u, m - 1) + rest) == Repeat(u, m) + rest
  {
  }

  lemma {:induction false} HiddenRun(tracks: Tracks, b: nat, m: nat, kind: Kind, n: nat, author: Option<string>)
    requires b + m <= |tracks| && n > 0
    requires forall i :: b <= i < b + m ==> Hidden(tracks[i])
    ensures SegmentEnd(tracks, b, n) == SegmentEnd(tracks, b + m, n)
    ensures Segment(tracks, b, kind, n, author) == Repeat(Keep(Leave), m) + Segment(tracks, b + m, kind, n, author)
    decreases m
  {
    if m > 0 {
      HiddenRun(tracks, b + 1, m - 1, kind, n, author);
      OneMore(Keep(Leave), m, Segment(tracks, b + m, kind, n, author));
    }
  }

  lemma {:induction false} VisibleRun(tracks: Tracks, b: nat, m: nat, u: Atom, kind: Kind, n: nat, author: Option<string>)
    requires b + m <= |tracks| && m <= n
    requires forall i :: b <= i < b + m ==> !Hidden(tracks[i]) && Fate(kind, tracks[i], author) == u
    ensures SegmentEnd(tracks, b, n) == SegmentEnd(tracks, b + m, n - m)
    ensures Segment(tracks, b, kind, n, author) == Repeat(u, m) + Segment(tracks, b + m, kind, n - m, author)
    decreases m
  {
    if m > 0 {
      VisibleRun(tracks, b + 1, m - 1, u, kind, n - 1, author);
      OneMore(u, m, Segment(tracks, b + m, kind, n - m, author));
    }
  }

  /** How many visible characters there are from b on. */
  function VisibleCount(tracks: Tracks, b: nat): nat
    requires b <= |tracks|
    decreases |tracks| - b
  {
    if b == |tracks| then 0 else (if Hidden(tracks[b]) then 0 else 1) + VisibleCount(tracks, b + 1)
  }

  lemma {:induction false} VisibleCountIsLength(content: string, tracks: Tracks, b: nat)
    requires |content| == |tracks| && b <= |tracks|
    ensures |VisibleFrom(content, tracks, b)| == VisibleCount(tracks, b)
    decreases |tracks| - b
  {
    if b < |tracks| {
      VisibleCountIsLength(content, tracks, b + 1);
    }
  }

  lemma {:induction false} VisibleCountRun(tracks: Tracks, b: nat, m: nat)
    requires b + m <= |tracks|
    ensures VisibleCount(tracks, b) <= m + VisibleCount(tracks, b + m)
    ensures VisibleCount(tracks, b + m) <= VisibleCount(tracks, b)
    ensures (forall i :: b <= i < b + m ==> Hidden(tracks[i])) ==> VisibleCount(tracks, b) == VisibleCount(tracks, b + m)
    ensures (forall i :: b <= i < b + m ==> !Hidden(tracks[i])) ==> VisibleCount(tracks, b) == m + VisibleCount(tracks, b + m)
    decreases m
  {
    if m > 0 {
      VisibleCountRun(tracks, b + 1, m - 1);
    }
  }

  function OldLength(diffs: seq<Diff>): nat {
    if diffs == [] then 0 else (if diffs[0].kind.Added? then 0 else |diffs[0].text|) + OldLength(diffs[1..])
  }

  lemma {:induction false} OldLengthIsLength(diffs: seq<Diff>)
    ensures |OldText(diffs)| == OldLength(diffs)
  {
    if diffs != [] {
      OldLengthIsLength(diffs[1..]);
    }
  }

  // ----- the walk over ranges -----

  /**
    Where the walk stands: `ops` built so far, at base position `base`, with n
    visible characters of the current segment and `rest` of the diff to go.
  */
  ghost predicate Walking(ops: seq<ScanOp>, tracks: Tracks, base: nat, kind: Kind, n: nat, rest: seq<Diff>,
                          author: Option<string>, goal: seq<Atom>) {
    && base == Base(Atoms(ops)) <= |tracks|
    && SameEffect(goal, Atoms(ops) + Pending(tracks, base, kind, n, rest, author))
    && VisibleCount(tracks, base) == n + OldLength(rest)
  }

  lemma PushBefore(ops: seq<ScanOp>, op: ScanOp, x: seq<Atom>, goal: seq<Atom>)
    requires op.Insert? ==> op.ids.None?
    requires SameEffect(goal, Atoms(ops) + (Expand(op) + x))
    ensures SameEffect(goal, Atoms(Push(ops, op)) + x)
  {
    PushEffect(ops, op);
    SameEffectConcat(Atoms(Push(ops, op)), Atoms(ops) + Expand(op), x);
    Reassociate(Atoms(ops), Expand(op), x);
  }

  lemma PendingHidden(tracks: Tracks, b: nat, m: nat, kind: Kind, n: nat, rest: seq<Diff>, author: Option<string>)
    requires b + m <= |tracks| && n > 0 && forall i :: b <= i < b + m ==> Hidden(tracks[i])
    ensures Pending(tracks, b, kind, n, rest, author)
         == Repeat(Keep(Leave), m) + Pending(tracks, b + m, kind, n, rest, author)
  {
    HiddenRun(tracks, b, m, kind, n, author);
    Reassociate(Repeat(Keep(Leave), m), Segment(tracks, b + m, kind, n, author),
      Reading(tracks, SegmentEnd(tracks, b + m, n), rest, author));
  }

  lemma PendingVisible(tracks: Tracks, b: nat, m: nat, u: Atom, kind: Kind, n: nat, rest: seq<Diff>, author: Option<string>)
    requires b + m <= |tracks| && m <= n
    requires forall i :: b <= i < b + m ==> !Hidden(tracks[i]) && Fate(kind, tracks[i], author) == u
    ensures Pending(tracks, b, kind, n, rest, author)
         == Repeat(u, m) + Pending(tracks, b + m, kind, n - m, rest, author)
  {
    VisibleRun(tracks, b, m, u, kind, n, author);
    Reassociate(Repeat(u, m), Segment(tracks, b + m, kind, n - m, author),
      Reading(tracks, SegmentEnd(tracks, b + m, n - m), rest, author));
  }

  /** The operation that gives m characters the fate u. */
  function RunOp(u: Atom, m: nat): ScanOp
    requires !u.Add?
  {
    if u.Keep? then Retain(m, u.directive) else Remove(m)
  }

  lemma WalkHidden(ops: seq<ScanOp>, tracks: Tracks, base: nat, m: nat, kind: Kind, n: nat, rest: seq<Diff>,
                   author: Option<string>, goal: seq<Atom>)
    requires Walking(ops, tracks, base, kind, n, rest, author, goal)
    requires n > 0 && base + m <= |tracks| && forall i :: base <= i < base + m ==> Hidden(tracks[i])
    ensures Walking(Push(ops, Retain(m, Leave)), tracks, base + m, kind, n, rest, author, goal)
  {
    PendingHidden(tracks, base, m, kind, n, rest, author);
    VisibleCountRun(tracks, base, m);
    PushCounts(ops, Retain(m, Leave));
    PushBefore(ops, Retain(m, Leave), Pending(tracks, base + m, kind, n, rest, author), goal);
  }

  lemma WalkVisible(ops: seq<ScanOp>, tracks: Tracks, base: nat, m: nat, u: Atom, kind: Kind, n: nat, rest: seq<Diff>,
                    author: Option<string>, goal: seq<Atom>)
    requires Walking(ops, tracks, base, kind, n, rest, author, goal)
    requires m <= n && base + m <= |tracks| && !u.Add?
    requires forall i :: base <= i < base + m ==> !Hidden(tracks[i]) && Fate(kind, tracks[i], author) == u
    ensures Walking(Push(ops, RunOp(u, m)), tracks, base + m, kind, n - m, rest, author, goal)
  {
    PendingVisible(tracks, base, m, u, kind, n, rest, author);
    VisibleCountRun(tracks, base, m);
    PushCounts(ops, RunOp(u, m));
    PushBefore(ops, RunOp(u, m), Pending(tracks, base + m, kind, n - m, rest, author), goal);
  }

  /**
    How far the range cursor may run ahead of the text cursor. Every tracked
    delete behind it is passed; other ranges behind it end inside the segment, or
    are passed too when the segment needs to know them (`strict`). The current
    tracked delete has not started and the current tracked insert has not ended.
  */
  ghost predicate InStep(changes: seq<TrackedChange>, k: nat, base: nat, n: nat, strict: bool) {
    && k <= |changes|
    && (forall t | 0 <= t < k ::
          changes[t].range.End() <= if strict || changes[t].IsDelete() then base else base + n)
    && (k < |changes| && changes[k].IsDelete() ==> base <= changes[k].range.Start())
    && (k < |changes| && !changes[k].IsDelete() ==> base < changes[k].range.End())
  }

  predicate Strict(kind: Kind, author: Option<string>) { kind.Removed? && author.Some? }

  /** No tracked delete covers the characters before the current range. */
  lemma GapVisible(file: File, k: nat, base: nat, n: nat, kind: Kind, author: Option<string>, i: nat)
    requires WellFormed(file) && InStep(file.changes, k, base, n, Strict(kind, author))
    requires base <= i < |file.content| && forall t :: k <= t < |file.changes| ==> !file.changes[t].range.Covers(i)
    ensures !Hidden(TracksOf(file)[i])
    ensures Strict(kind, author) ==> TracksOf(file)[i] == None
  {
    if TrackingAt(file.changes, i).Some? {
      var t := TrackingAtFound(file.changes, i);
      assert t < k;
    }
  }

  /** Before the current range there are only characters the segment treats alike. */
  lemma GapFate(file: File, k: nat, base: nat, m: nat, n: nat, kind: Kind, author: Option<string>)
    requires WellFormed(file) && InStep(file.changes, k, base, n, Strict(kind, author))
    requires !kind.Added? && base + m <= |file.content|
    requires k == |file.changes| || m == 0 || base + m <= file.changes[k].range.Start()
      || (!Strict(kind, author) && !file.changes[k].IsDelete() && base + m <= file.changes[k].range.End())
    ensures forall i | base <= i < base + m ::
      !Hidden(TracksOf(file)[i]) && Fate(kind, TracksOf(file)[i], author) == Fate(kind, None, author)
  {
    forall i | base <= i < base + m
      ensures !Hidden(TracksOf(file)[i]) && Fate(kind, TracksOf(file)[i], author) == Fate(kind, None, author)
    {
      if k < |file.changes| && file.changes[k].range.Covers(i) {
        TrackingAtInOrder(file.changes, |file.content|, k, i);
      } else {
        forall t | k <= t < |file.changes| ensures !file.changes[t].range.Covers(i) {
          assert t > k ==> file.changes[k].range.End() <= file.changes[t].range.Start();
        }
        GapVisible(file, k, base, n, kind, author, i);
      }
    }
  }

  /** `removeContent` or a plain retain. */
  method AppendRun(op: TextOperation, kind: Kind, m: nat, author: Option<string>)
    requires op.Valid() && !kind.Added?
    modifies op
    ensures op.Valid() && op.baseLength == old(op.baseLength) + m
    ensures !Fate(kind, None, author).Add? && op.ops == Push(old(op.ops), RunOp(Fate(kind, None, author), m))
  {
    PushCounts(op.ops, RunOp(Fate(kind, None, author), m));
    hide SameEffect, Canonical, Atoms, Base, Target, PushMerging, PushInsert;
    if kind.Removed? {
      if author.Some? {
        op.Retain(m, Assign(TrackingProps(TrackedDelete, author.value)));
      } else {
        op.Remove(m);
      }
    } else {
      op.Retain(m, Leave);
    }
  }

  /** What a segment does to m ordinary characters. */
  method Consume(op: TextOperation, ghost tracks: Tracks, kind: Kind, m: nat, ghost n: nat, ghost rest: seq<Diff>,
                 author: Option<string>, ghost goal: seq<Atom>)
    requires op.Valid() && !kind.Added? && m <= n && op.baseLength + m <= |tracks|
    requires Walking(op.ops, tracks, op.baseLength, kind, n, rest, author, goal)
    requires forall i | op.baseLength <= i < op.baseLength + m ::
      !Hidden(tracks[i]) && Fate(kind, tracks[i], author) == Fate(kind, None, author)
    modifies op
    ensures op.Valid() && op.baseLength == old(op.baseLength) + m
    ensures Walking(op.ops, tracks, op.baseLength, kind, n - m, rest, author, goal)
  {
    assert !Fate(kind, None, author).Add?;
    hide *;
    WalkVisible(op.ops, tracks, op.baseLength, m, Fate(kind, None, author), kind, n, rest, author, goal);
    AppendRun(op, kind, m, author);
  }

  /** The branch for a tracked delete: consume up to it, then step over it. */
  method PassDelete(file: File, op: TextOperation, k: nat, kind: Kind, n: nat, ghost rest: seq<Diff>,
                    author: Option<string>, ghost goal: seq<Atom>) returns (left: nat)
    requires WellFormed(file) && op.Valid() && !kind.Added?
    requires Walking(op.ops, TracksOf(file), op.baseLength, kind, n, rest, author, goal)
    requires InStep(file.changes, k, op.baseLength, n, Strict(kind, author))
    requires k < |file.changes| && file.changes[k].IsDelete() && file.changes[k].range.Start() < op.baseLength + n
    modifies op
    ensures op.Valid() && Walking(op.ops, TracksOf(file), op.baseLength, kind, left, rest, author, goal)
    ensures InStep(file.changes, k + 1, op.baseLength, left, Strict(kind, author))
  {
    var tc := file.changes[k];
    var before := tc.range.Start() - op.baseLength;
    assert 0 <= before && 0 < tc.range.length && tc.range.End() <= |file.content| == |TracksOf(file)|;
    hide *;
    GapFate(file, k, op.baseLength, before, n, kind, author);
    PassedInStep(file, k, op.baseLength, n, n - before, Strict(kind, author));
    Consume(op, TracksOf(file), kind, before, n, rest, author, goal);
    left := n - before;
    StepOver(file, op, k, kind, left, rest, author, goal);
  }

  /** A plain retain of a tracked delete that starts where the operation has got to. */
  method StepOver(file: File, op: TextOperation, k: nat, ghost kind: Kind, ghost n: nat, ghost rest: seq<Diff>,
                  ghost author: Option<string>, ghost goal: seq<Atom>)
    requires WellFormed(file) && op.Valid() && n > 0
    requires Walking(op.ops, TracksOf(file), op.baseLength, kind, n, rest, author, goal)
    requires k < |file.changes| && file.changes[k].IsDelete() && file.changes[k].range.Start() == op.baseLength
    modifies op
    ensures op.Valid() && op.baseLength == file.changes[k].range.End()
    ensures Walking(op.ops, TracksOf(file), op.baseLength, kind, n, rest, author, goal)
  {
    var m := file.changes[k].range.length;
    assert op.baseLength + m == file.changes[k].range.End() <= |TracksOf(file)|;
    HiddenRange(file, k);
    hide *;
    WalkHidden(op.ops, TracksOf(file), op.baseLength, m, kind, n, rest, author, goal);
    RetainPlainly(op, m);
  }

  method RetainPlainly(op: TextOperation, m: nat)
    requires op.Valid()
    modifies op
    ensures op.Valid() && op.ops == Push(old(op.ops), Retain(m, Leave)) && op.baseLength == old(op.baseLength) + m
  {
    PushCounts(op.ops, Retain(m, Leave));
    hide SameEffect, Canonical, Atoms, PushMerging, PushInsert;
    op.Retain(m, Leave);
  }

  lemma PassedInStep(file: File, k: nat, base: nat, n: nat, left: nat, strict: bool)
    requires WellFormed(file) && InStep(file.changes, k, base, n, strict)
    requires k < |file.changes| && base + n <= file.changes[k].range.End() + left
    requires base <= file.changes[k].range.End()
    ensures InStep(file.changes, k + 1, file.changes[k].range.End(), left, strict)
  {
    assert k + 1 < |file.changes| ==> file.changes[k].range.End() <= file.changes[k + 1].range.Start();
  }

  lemma CutInStep(file: File, k: nat, base: nat, n: nat, after: nat, left: nat)
    requires WellFormed(file) && InStep(file.changes, k, base, n, true) && k < |file.changes|
    requires !file.changes[k].IsDelete() && after + left == base + n
    requires after == Min(file.changes[k].range.End(), base + n) && base <= after
    ensures file.changes[k].range.End() <= after ==> InStep(file.changes, k + 1, after, left, true)
    ensures file.changes[k].range.End() > after ==> left == 0 && InStep(file.changes, k, after, 0, true)
  {
    if file.changes[k].range.End() <= after {
      PassedInStep(file, k, base, n, left, true);
    }
  }

  /** Removing inside an existing tracked insert is a plain removal. */
  lemma InsertFate(file: File, k: nat, b: nat, m: nat, author: Option<string>)
    requires WellFormed(file) && k < |file.changes| && !file.changes[k].IsDelete()
    requires file.changes[k].range.Start() <= b && b + m <= file.changes[k].range.End()
    ensures forall i | b <= i < b + m ::
      !Hidden(TracksOf(file)[i]) && Fate(Removed, TracksOf(file)[i], author) == Drop
  {
    HiddenRange(file, k);
  }

  /** A plain removal of m characters of a tracked insert. */
  method Cut(op: TextOperation, ghost tracks: Tracks, m: nat, ghost n: nat, ghost rest: seq<Diff>,
             author: Option<string>, ghost goal: seq<Atom>)
    requires op.Valid() && m <= n && op.baseLength + m <= |tracks|
    requires Walking(op.ops, tracks, op.baseLength, Removed, n, rest, author, goal)
    requires forall i | op.baseLength <= i < op.baseLength + m ::
      !Hidden(tracks[i]) && Fate(Removed, tracks[i], author) == Drop
    modifies op
    ensures op.Valid() && op.baseLength == old(op.baseLength) + m
    ensures Walking(op.ops, tracks, op.baseLength, Removed, n - m, rest, author, goal)
  {
    WalkVisible(op.ops, tracks, op.baseLength, m, Drop, Removed, n, rest, author, goal);
    op.Remove(m);
  }

  /** What lies before the tracked insert. */
  method ConsumeGap(file: File, op: TextOperation, k: nat, m: nat, ghost n: nat, ghost rest: seq<Diff>,
                    author: Option<string>, ghost goal: seq<Atom>)
    requires WellFormed(file) && op.Valid() && author.Some? && m <= n && op.baseLength + m <= |file.content|
    requires Walking(op.ops, TracksOf(file), op.baseLength, Removed, n, rest, author, goal)
    requires InStep(file.changes, k, op.baseLength, n, true)
    requires k < |file.changes| && (m == 0 || op.baseLength + m <= file.changes[k].range.Start())
    modifies op
    ensures op.Valid() && op.baseLength == old(op.baseLength) + m
    ensures Walking(op.ops, TracksOf(file), op.baseLength, Removed, n - m, rest, author, goal)
  {
    GapFate(file, k, op.baseLength, m, n, Removed, author);
    Consume(op, TracksOf(file), Removed, m, n, rest, author, goal);
  }

  /** What lies inside it. */
  method CutOverlap(file: File, op: TextOperation, k: nat, m: nat, ghost n: nat, ghost rest: seq<Diff>,
                    author: Option<string>, ghost goal: seq<Atom>)
    requires WellFormed(file) && op.Valid() && author.Some? && m <= n && op.baseLength + m <= |file.content|
    requires Walking(op.ops, TracksOf(file), op.baseLength, Removed, n, rest, author, goal)
    requires k < |file.changes| && !file.changes[k].IsDelete()
    requires file.changes[k].range.Start() <= op.baseLength && op.baseLength + m <= file.changes[k].range.End()
    modifies op
    ensures op.Valid() && op.baseLength == old(op.baseLength) + m
    ensures Walking(op.ops, TracksOf(file), op.baseLength, Removed, n - m, rest, author, goal)
  {
    InsertFate(file, k, op.baseLength, m, author);
    Cut(op, TracksOf(file), m, n, rest, author, goal);
  }

  /** The branch for a removal with tracking that meets an existing tracked insert. */
  method CutInsert(file: File, op: TextOperation, k: nat, n: nat, ghost rest: seq<Diff>,
                   author: Option<string>, ghost goal: seq<Atom>) returns (left: nat)
    requires WellFormed(file) && op.Valid() && author.Some?
    requires Walking(op.ops, TracksOf(file), op.baseLength, Removed, n, rest, author, goal)
    requires InStep(file.changes, k, op.baseLength, n, true)
    requires k < |file.changes| && !file.changes[k].IsDelete() && file.changes[k].range.Start() < op.baseLength + n
    modifies op
    ensures op.Valid() && Walking(op.ops, TracksOf(file), op.baseLength, Removed, left, rest, author, goal)
    ensures file.changes[k].range.End() <= op.baseLength ==> InStep(file.changes, k + 1, op.baseLength, left, true)
    ensures file.changes[k].range.End() > op.baseLength ==>
      left == 0 && InStep(file.changes, k, op.baseLength, 0, true)
  {
    hide Walking, InStep, SameEffect, Base, Atoms;
    var range := file.changes[k].range;
    var segmentEnd := op.baseLength + n;
    var before := Max(0, range.Start() - op.baseLength);
    CutFits(file, k, op.baseLength, n);
    ConsumeGap(file, op, k, before, n, rest, author, goal);
    var overlap := Min(range.End(), segmentEnd) - op.baseLength;
    left := n - before - overlap;
    CutInStep(file, k, old(op.baseLength), n, op.baseLength + overlap, left);
    CutOverlap(file, op, k, overlap, n - before, rest, author, goal);
  }

  /** The tracked insert lies ahead of the segment's start or around it, and within the text. */
  lemma CutFits(file: File, k: nat, base: nat, n: nat)
    requires WellFormed(file) && InStep(file.changes, k, base, n, true)
    requires k < |file.changes| && !file.changes[k].IsDelete() && file.changes[k].range.Start() < base + n
    ensures var r := file.changes[k].range;
      && base < r.End() <= |file.content|
      && Max(0, r.Start() - base) <= n
      && base + Max(0, r.Start() - base) <= Min(r.End(), base + n)
  {
  }

  /** One pass of the inner loop; `more` is false where the source breaks out of it. */
  method WalkRange(file: File, op: TextOperation, k: nat, kind: Kind, n: nat, ghost rest: seq<Diff>,
                   author: Option<string>, ghost goal: seq<Atom>) returns (next: nat, left: nat, more: bool)
    requires WellFormed(file) && op.Valid() && !kind.Added? && k < |file.changes|
    requires Walking(op.ops, TracksOf(file), op.baseLength, kind, n, rest, author, goal)
    requires InStep(file.changes, k, op.baseLength, n, Strict(kind, author))
    modifies op
    ensures op.Valid() && Walking(op.ops, TracksOf(file), op.baseLength, kind, left, rest, author, goal)
    ensures InStep(file.changes, next, op.baseLength, left, Strict(kind, author))
    ensures more ==> next == k + 1
    ensures !more ==> Stopped(file.changes, next, op.baseLength, left, Strict(kind, author))
  {
    var tc := file.changes[k];
    var segmentEnd := op.baseLength + n;
    next, left, more := k, n, false;
    if tc.range.Start() >= segmentEnd {
      return;
    }
    if tc.IsDelete() {
      left := PassDelete(file, op, k, kind, n, rest, author, goal);
      next, more := k + 1, true;
    } else if kind.Removed? && author.Some? {
      left := CutInsert(file, op, k, n, rest, author, goal);
      if tc.range.End() <= op.baseLength {
        next, more := k + 1, true;
      }
    } else if tc.range.End() <= segmentEnd {
      next, more := k + 1, true;
    }
  }

  /** What is left of the segment lies before the current range, or inside a tracked insert it treats as text. */
  ghost predicate Stopped(changes: seq<TrackedChange>, k: nat, base: nat, n: nat, strict: bool) {
    k >= |changes| || n == 0 || base + n <= changes[k].range.Start()
    || (!strict && !changes[k].IsDelete() && base + n < changes[k].range.End())
  }

  /** One removed or unchanged segment: the inner loop and what follows it. */
  method WalkSegment(file: File, op: TextOperation, k: nat, kind: Kind, text: string, ghost rest: seq<Diff>,
                     author: Option<string>, ghost goal: seq<Atom>) returns (tcIndex: nat)
    requires WellFormed(file) && op.Valid() && !kind.Added?
    requires Walking(op.ops, TracksOf(file), op.baseLength, kind, |text|, rest, author, goal)
    requires InStep(file.changes, k, op.baseLength, 0, true)
    modifies op
    ensures op.Valid() && Walking(op.ops, TracksOf(file), op.baseLength, kind, 0, rest, author, goal)
    ensures InStep(file.changes, tcIndex, op.baseLength, 0, true)
  {
    tcIndex := k;
    var left: nat := |text|;
    var more := true;
    while more && tcIndex < |file.changes|
      invariant op.Valid() && Walking(op.ops, TracksOf(file), op.baseLength, kind, left, rest, author, goal)
      invariant InStep(file.changes, tcIndex, op.baseLength, left, Strict(kind, author))
      invariant !more ==> Stopped(file.changes, tcIndex, op.baseLength, left, Strict(kind, author))
      decreases more, |file.changes| - tcIndex
    {
      tcIndex, left, more := WalkRange(file, op, tcIndex, kind, left, rest, author, goal);
    }
    SegmentFits(file, tcIndex, op.baseLength, left, kind, author);
    GapFate(file, tcIndex, op.baseLength, left, left, kind, author);
    Consume(op, TracksOf(file), kind, left, left, rest, author, goal);
  }

  /** When the inner loop stops, the rest of the segment lies before any tracked delete. */
  lemma SegmentFits(file: File, k: nat, base: nat, n: nat, kind: Kind, author: Option<string>)
    requires WellFormed(file) && base <= |file.content| && VisibleCount(TracksOf(file), base) >= n
    requires InStep(file.changes, k, base, n, Strict(kind, author))
    requires Stopped(file.changes, k, base, n, Strict(kind, author))
    ensures base + n <= |file.content|
  {
    VisibleCountRun(TracksOf(file), base, |file.content| - base);
  }

  /**
    The out-of-sync error is unreachable, the operation covers the whole file,
    and it does to every character what the one-at-a-time reading says.
  */
  method DiffsToTextOperation(file: File, diffs: seq<Diff>, author: Option<string>)
    returns (r: Result<TextOperation, OutOfSync>)
    requires WellFormed(file) && OldText(diffs) == VisibleContent(file)
    ensures r.Ok? && fresh(r.value) && r.value.Valid()
    ensures r.value.baseLength == |file.content|
    ensures SameEffect(Reading(TracksOf(file), 0, diffs, author), Atoms(r.value.ops))
  {
    ghost var tracks := TracksOf(file);
    ghost var goal := Reading(tracks, 0, diffs, author);
    var op := new TextOperation();
    var tcIndex: nat := 0;
    BetweenStart(file, diffs, author);
    assert diffs[0..] == diffs;
    for d := 0 to |diffs|
      invariant fresh(op) && op.Valid()
      invariant Between(op.ops, tracks, op.baseLength, diffs[d..], author, goal)
      invariant InStep(file.changes, tcIndex, op.baseLength, 0, true)
    {
      var diff := diffs[d];
      BetweenStep(op.ops, tracks, op.baseLength, diffs, d, author, goal);
      if diff.kind.Added? {
        op.Insert(diff.text, InsertProps(author), None);
      } else {
        tcIndex := WalkSegment(file, op, tcIndex, diff.kind, diff.text, diffs[d + 1..], author, goal);
        BetweenAgain(op.ops, tracks, op.baseLength, diff.kind, diffs[d + 1..], author, goal);
      }
    }
    assert diffs[|diffs|..] == [];
    r := RetainRest(file, op, tcIndex, author, goal);
  }

  /** The tail loop: only tracked deletes can be left, and they are retained. */
  method RetainRest(file: File, op: TextOperation, k: nat, author: Option<string>, ghost goal: seq<Atom>)
    returns (r: Result<TextOperation, OutOfSync>)
    requires WellFormed(file) && op.Valid()
    requires Between(op.ops, TracksOf(file), op.baseLength, [], author, goal)
    requires InStep(file.changes, k, op.baseLength, 0, true)
    modifies op
    ensures r == Ok(op) && op.Valid() && op.baseLength == |file.content| && SameEffect(goal, Atoms(op.ops))
  {
    var tcIndex := k;
    while tcIndex < |file.changes|
      invariant op.Valid() && Between(op.ops, TracksOf(file), op.baseLength, [], author, goal)
      invariant InStep(file.changes, tcIndex, op.baseLength, 0, true)
    {
      var tc := file.changes[tcIndex];
      NextIsDelete(file, tcIndex, op.baseLength);
      if !tc.IsDelete() || tc.range.Start() != op.baseLength {
        return Err(OutOfSync);
      }
      RetainDelete(file, op, tcIndex, author, goal);
      tcIndex := tcIndex + 1;
    }
    NothingLeft(file, tcIndex, op.baseLength);
    assert Atoms(op.ops) + [] == Atoms(op.ops);
    return Ok(op);
  }

  /** One tracked delete after the end of the diff. */
  method RetainDelete(file: File, op: TextOperation, k: nat, author: Option<string>, ghost goal: seq<Atom>)
    requires WellFormed(file) && op.Valid() && k < |file.changes|
    requires Between(op.ops, TracksOf(file), op.baseLength, [], author, goal)
    requires InStep(file.changes, k, op.baseLength, 0, true)
    requires file.changes[k].IsDelete() && file.changes[k].range.Start() == op.baseLength
    modifies op
    ensures op.Valid() && Between(op.ops, TracksOf(file), op.baseLength, [], author, goal)
    ensures InStep(file.changes, k + 1, op.baseLength, 0, true)
  {
    var n := file.changes[k].range.length;
    assert op.baseLength + n == file.changes[k].range.End() <= |TracksOf(file)|;
    hide *;
    BetweenTail(op.ops, TracksOf(file), op.baseLength, n, author, goal);
    PassedInStep(file, k, op.baseLength, 0, 0, true);
    RetainPlainly(op, n);
  }

  /** Between two segments: the rest of the diff is still to be read. */
  ghost predicate Between(ops: seq<ScanOp>, tracks: Tracks, base: nat, rest: seq<Diff>, author: Option<string>,
                          goal: seq<Atom>) {
    && base == Base(Atoms(ops)) <= |tracks|
    && SameEffect(goal, Atoms(ops) + Reading(tracks, base, rest, author))
    && VisibleCount(tracks, base) == OldLength(rest)
  }

  lemma BetweenStart(file: File, diffs: seq<Diff>, author: Option<string>)
    requires OldText(diffs) == VisibleContent(file)
    ensures Between([], TracksOf(file), 0, diffs, author, Reading(TracksOf(file), 0, diffs, author))
  {
    var goal := Reading(TracksOf(file), 0, diffs, author);
    VisibleCountIsLength(file.content, TracksOf(file), 0);
    OldLengthIsLength(diffs);
    assert Atoms([]) + goal == goal;
  }

  /** What one more diff means: an insert here, or a segment to walk. */
  lemma BetweenStep(ops: seq<ScanOp>, tracks: Tracks, base: nat, diffs: seq<Diff>, d: nat, author: Option<string>,
                    goal: seq<Atom>)
    requires d < |diffs| && Between(ops, tracks, base, diffs[d..], author, goal)
    ensures diffs[d].kind.Added? ==>
      Between(Push(ops, Insert(diffs[d].text, InsertProps(author), None)), tracks, base, diffs[d + 1..], author, goal)
    ensures !diffs[d].kind.Added? ==>
      Walking(ops, tracks, base, diffs[d].kind, |diffs[d].text|, diffs[d + 1..], author, goal)
  {
    var rest := diffs[d..];
    assert rest[0] == diffs[d] && rest[1..] == diffs[d + 1..];
    if rest[0].kind.Added? {
      BetweenAdd(ops, tracks, base, rest, author, goal);
    }
  }

  lemma BetweenAgain(ops: seq<ScanOp>, tracks: Tracks, base: nat, kind: Kind, rest: seq<Diff>, author: Option<string>,
                     goal: seq<Atom>)
    requires Walking(ops, tracks, base, kind, 0, rest, author, goal)
    ensures Between(ops, tracks, base, rest, author, goal)
  {
    assert Pending(tracks, base, kind, 0, rest, author) == Reading(tracks, base, rest, author);
  }

  lemma BetweenAdd(ops: seq<ScanOp>, tracks: Tracks, base: nat, rest: seq<Diff>, author: Option<string>, goal: seq<Atom>)
    requires Between(ops, tracks, base, rest, author, goal) && rest != [] && rest[0].kind.Added?
    ensures Between(Push(ops, Insert(rest[0].text, InsertProps(author), None)), tracks, base, rest[1..], author, goal)
  {
    var op := Insert(rest[0].text, InsertProps(author), None);
    PushCounts(ops, op);
    PushBefore(ops, op, Reading(tracks, base, rest[1..], author), goal);
  }

  lemma ReadingTail(tracks: Tracks, base: nat, m: nat, author: Option<string>)
    requires base + m <= |tracks|
    ensures Reading(tracks, base, [], author) == Expand(Retain(m, Leave)) + Reading(tracks, base + m, [], author)
  {
    var n := |tracks| - base;
    assert Repeat(Keep(Leave), n) == Repeat(Keep(Leave), m) + Repeat(Keep(Leave), n - m);
  }

  lemma BetweenTail(ops: seq<ScanOp>, tracks: Tracks, base: nat, m: nat, author: Option<string>, goal: seq<Atom>)
    requires Between(ops, tracks, base, [], author, goal) && base + m <= |tracks|
    ensures Between(Push(ops, Retain(m, Leave)), tracks, base + m, [], author, goal)
  {
    PushCounts(ops, Retain(m, Leave));
    ReadingTail(tracks, base, m, author);
    PushBefore(ops, Retain(m, Leave), Reading(tracks, base + m, [], author), goal);
    VisibleCountRun(tracks, base, m);
  }

  /** With no visible character left, the next range is a tracked delete that starts here. */
  lemma NextIsDelete(file: File, k: nat, base: nat)
    requires WellFormed(file) && base <= |file.content| && k < |file.changes|
    requires InStep(file.changes, k, base, 0, true) && VisibleCount(TracksOf(file), base) == 0
    ensures file.changes[k].IsDelete() && file.changes[k].range.Start() == base
  {
    var tc := file.changes[k];
    if !tc.IsDelete() {
      HiddenRange(file, k);
      AllHidden(TracksOf(file), base, tc.range.End() - 1);
    } else if tc.range.Start() > base {
      GapFate(file, k, base, 1, 0, Unchanged, None);
      AllHidden(TracksOf(file), base, base);
    }
  }

  lemma {:induction false} AllHidden(tracks: Tracks, b: nat, i: nat)
    requires b <= i < |tracks| && VisibleCount(tracks, b) == 0
    ensures Hidden(tracks[i])
    decreases i - b
  {
    if b < i {
      AllHidden(tracks, b + 1, i);
    }
  }

  lemma NothingLeft(file: File, k: nat, base: nat)
    requires WellFormed(file) && base <= |file.content| && k == |file.changes|
    requires InStep(file.changes, k, base, 0, true) && VisibleCount(TracksOf(file), base) == 0
    ensures base == |file.content|
  {
    if base < |file.content| {
      GapFate(file, k, base, 1, 0, Unchanged, None);
      AllHidden(TracksOf(file), base, base);
    }
  }
}
