/**
  What the operation built from a diff does to a document
  (overleaf-editor-core: diff_as_text_operation.js lines 44-60 and 82-153).

  Every result is about any operation with the effect of `Reading`, hence about
  the one that `DiffsToTextOperation` returns.
*/
module DiffProperties {
  import opened Common
  import opened TextModel
  import opened TextOperations
  import opened TrackedFile
  import opened DiffToOperation

  /** The document is the file's text with the file's tracking, and any comments. */
  ghost predicate Shows(doc: Doc, content: string, tracks: Tracks) {
    && |doc| == |content| == |tracks|
    && forall i :: 0 <= i < |doc| ==> doc[i].c == content[i] && doc[i].tracking == tracks[i]
  }

  /** The text of a document without its tracked deletes. */
  function VisibleText(doc: Doc): string {
    if doc == [] then ""
    else (if Hidden(doc[0].tracking) then "" else [doc[0].c]) + VisibleText(doc[1..])
  }

  lemma {:induction false} VisibleTextConcat(a: Doc, b: Doc)
    ensures VisibleText(a + b) == VisibleText(a) + VisibleText(b)
  {
    if a == [] {
      assert a + b == b;
    } else {
      assert (a + b)[0] == a[0] && (a + b)[1..] == a[1..] + b;
      VisibleTextConcat(a[1..], b);
    }
  }

  lemma {:induction false} VisibleTextTyped(text: string, props: Option<TrackingProps>, ids: CommentIds)
    requires !Hidden(props)
    ensures VisibleText(Typed(text, props, ids)) == text
  {
    if text != "" {
      assert Typed(text, props, ids)[1..] == Typed(text[1..], props, ids);
      VisibleTextTyped(text[1..], props, ids);
    }
  }

  lemma {:induction false} VisibleTextOfShown(doc: Doc, content: string, tracks: Tracks, b: nat)
    requires Shows(doc, content, tracks) && b <= |doc|
    ensures VisibleText(doc[b..]) == VisibleFrom(content, tracks, b)
    decreases |doc| - b
  {
    if b < |doc| {
      VisibleTextOfShown(doc, content, tracks, b + 1);
      assert doc[b..][1..] == doc[b + 1..];
    }
  }

  // ----- the visible text after the operation -----

  lemma {:induction false} SegmentBase(tracks: Tracks, b: nat, kind: Kind, n: nat, author: Option<string>)
    requires b <= |tracks|
    ensures Base(Segment(tracks, b, kind, n, author)) == SegmentEnd(tracks, b, n) - b
    decreases |tracks| - b
  {
    if n != 0 && b != |tracks| {
      SegmentBase(tracks, b + 1, kind, if Hidden(tracks[b]) then n else n - 1, author);
    }
  }

  lemma {:induction false} ReadingBase(tracks: Tracks, b: nat, diffs: seq<Diff>, author: Option<string>)
    requires b <= |tracks|
    ensures Base(Reading(tracks, b, diffs, author)) == |tracks| - b
    decreases |diffs|
  {
    if diffs == [] {
      CountsRepeat(Keep(Leave), |tracks| - b);
    } else if diffs[0].kind.Added? {
      var added := Adds(Typed(diffs[0].text, InsertProps(author), None));
      ReadingBase(tracks, b, diffs[1..], author);
      CountsAdds(Typed(diffs[0].text, InsertProps(author), None));
      CountsConcat(added, Reading(tracks, b, diffs[1..], author));
    } else {
      var n := |diffs[0].text|;
      var e := SegmentEnd(tracks, b, n);
      SegmentBase(tracks, b, diffs[0].kind, n, author);
      ReadingBase(tracks, e, diffs[1..], author);
      CountsConcat(Segment(tracks, b, diffs[0].kind, n, author), Reading(tracks, e, diffs[1..], author));
    }
  }

  lemma ApplyInParts(x: seq<Atom>, y: seq<Atom>, here: Doc, after: Doc)
    requires Base(x) == |here| && Base(y) == |after|
    ensures Base(x + y) == |here + after|
    ensures ApplyAtoms(x + y, here + after) == ApplyAtoms(x, here) + ApplyAtoms(y, after)
  {
    CountsConcat(x, y);
    ApplyConcat(x, y, here + after);
    assert (here + after)[..|here|] == here && (here + after)[|here|..] == after;
  }

  /** What a segment leaves visible, and where the rest of the visible text begins. */
  lemma {:induction false} SegmentVisible(doc: Doc, content: string, tracks: Tracks, b: nat, kind: Kind, text: string,
                                          tail: string, author: Option<string>)
    requires Shows(doc, content, tracks) && b <= |doc| && !kind.Added?
    requires VisibleFrom(content, tracks, b) == text + tail
    ensures var e := SegmentEnd(tracks, b, |text|);
      var x := Segment(tracks, b, kind, |text|, author);
      && VisibleFrom(content, tracks, e) == tail
      && Base(x) == e - b
      && VisibleText(ApplyAtoms(x, doc[b..e])) == if kind.Removed? then "" else text
    decreases |doc| - b, 1
  {
    var n := |text|;
    SegmentBase(tracks, b, kind, n, author);
    assert |text + tail| == n + |tail|;
    if n == 0 {
      assert text + tail == tail;
    } else {
      assert b < |doc|;
      if Hidden(tracks[b]) {
        SegmentPastHidden(doc, content, tracks, b, kind, text, tail, author);
      } else {
        SegmentPastShown(doc, content, tracks, b, kind, text, tail, author);
      }
    }
  }

  lemma {:induction false} SegmentPastHidden(doc: Doc, content: string, tracks: Tracks, b: nat, kind: Kind, text: string,
                                             tail: string, author: Option<string>)
    requires Shows(doc, content, tracks) && b < |doc| && !kind.Added? && text != "" && Hidden(tracks[b])
    requires VisibleFrom(content, tracks, b) == text + tail
    ensures var e := SegmentEnd(tracks, b, |text|);
      var x := Segment(tracks, b, kind, |text|, author);
      && VisibleFrom(content, tracks, e) == tail
      && Base(x) == e - b
      && VisibleText(ApplyAtoms(x, doc[b..e])) == if kind.Removed? then "" else text
    decreases |doc| - b, 0
  {
    var e := SegmentEnd(tracks, b, |text|);
    SegmentBase(tracks, b, kind, |text|, author);
    assert doc[b..e][0] == doc[b] && doc[b..e][1..] == doc[b + 1..e];
    SegmentVisible(doc, content, tracks, b + 1, kind, text, tail, author);
  }

  lemma {:induction false} SegmentPastShown(doc: Doc, content: string, tracks: Tracks, b: nat, kind: Kind, text: string,
                                            tail: string, author: Option<string>)
    requires Shows(doc, content, tracks) && b < |doc| && !kind.Added? && text != "" && !Hidden(tracks[b])
    requires VisibleFrom(content, tracks, b) == text + tail
    ensures var e := SegmentEnd(tracks, b, |text|);
      var x := Segment(tracks, b, kind, |text|, author);
      && VisibleFrom(content, tracks, e) == tail
      && Base(x) == e - b
      && VisibleText(ApplyAtoms(x, doc[b..e])) == if kind.Removed? then "" else text
    decreases |doc| - b, 0
  {
    hide *;
    ShownAt(doc, content, tracks, b);
    SegmentHead(tracks, b, kind, |text|, author);
    VisibleHead(content, tracks, b, text, tail);
    var e, y := SegmentEnd(tracks, b, |text|), Segment(tracks, b + 1, kind, |text| - 1, author);
    SegmentVisible(doc, content, tracks, b + 1, kind, text[1..], tail, author);
    OneMoreShown(doc[b], kind, author, y, doc[b + 1..e], text);
    SliceHead(doc, b, e);
  }

  lemma ShownLength(doc: Doc, content: string, tracks: Tracks)
    requires Shows(doc, content, tracks)
    ensures |doc| == |content| == |tracks|
  {
  }

  lemma ShownAt(doc: Doc, content: string, tracks: Tracks, b: nat)
    requires Shows(doc, content, tracks) && b < |doc|
    ensures |doc| == |content| == |tracks| && doc[b].c == content[b] && doc[b].tracking == tracks[b]
  {
  }

  lemma SliceHead<T>(s: seq<T>, b: nat, e: nat)
    requires b < e <= |s|
    ensures [s[b]] + s[b + 1..e] == s[b..e]
  {
  }

  lemma SegmentHead(tracks: Tracks, b: nat, kind: Kind, n: nat, author: Option<string>)
    requires b < |tracks| && 0 < n && !Hidden(tracks[b])
    ensures SegmentEnd(tracks, b, n) == SegmentEnd(tracks, b + 1, n - 1)
    ensures Segment(tracks, b, kind, n, author) == [Fate(kind, tracks[b], author)] + Segment(tracks, b + 1, kind, n - 1, author)
  {
  }

  lemma VisibleHead(content: string, tracks: Tracks, b: nat, text: string, tail: string)
    requires |content| == |tracks| && b < |tracks| && !Hidden(tracks[b]) && text != ""
    requires VisibleFrom(content, tracks, b) == text + tail
    ensures text[0] == content[b] && VisibleFrom(content, tracks, b + 1) == text[1..] + tail
  {
    assert text[0] == (text + tail)[0] && text[1..] + tail == (text + tail)[1..];
  }

  lemma OneMoreShown(ch: DocChar, kind: Kind, author: Option<string>, y: seq<Atom>, rest: Doc, text: string)
    requires !kind.Added? && !Hidden(ch.tracking) && Base(y) == |rest| && text != "" && text[0] == ch.c
    requires VisibleText(ApplyAtoms(y, rest)) == if kind.Removed? then "" else text[1..]
    ensures var x := [Fate(kind, ch.tracking, author)] + y;
      && Base(x) == 1 + |rest|
      && VisibleText(ApplyAtoms(x, [ch] + rest)) == if kind.Removed? then "" else text
  {
    var fate := [Fate(kind, ch.tracking, author)];
    assert fate[1..] == [] && [ch][1..] == [];
    ApplyInParts(fate, y, [ch], rest);
    VisibleTextConcat(ApplyAtoms(fate, [ch]), ApplyAtoms(y, rest));
  }

  lemma ReadingSplits(tracks: Tracks, b: nat, diffs: seq<Diff>, author: Option<string>)
    requires b <= |tracks| && diffs != [] && !diffs[0].kind.Added?
    ensures var n := |diffs[0].text|;
      && Reading(tracks, b, diffs, author)
           == Segment(tracks, b, diffs[0].kind, n, author) + Reading(tracks, SegmentEnd(tracks, b, n), diffs[1..], author)
      && OldLength(diffs) == n + OldLength(diffs[1..])
  {
  }

  /** The first piece of a diff, if it is not an added one, and the rest of it. */
  lemma TextsSplit(diffs: seq<Diff>)
    requires diffs != [] && !diffs[0].kind.Added?
    ensures var diff, rest := diffs[0], diffs[1..];
      && OldText(diffs) == diff.text + OldText(rest)
      && NewText(diffs) == (if diff.kind.Removed? then "" else diff.text) + NewText(rest)
  {
  }

  lemma {:induction false} ReadingVisible(doc: Doc, content: string, tracks: Tracks, b: nat, diffs: seq<Diff>,
                                          author: Option<string>)
    requires Shows(doc, content, tracks) && b <= |doc|
    requires VisibleFrom(content, tracks, b) == OldText(diffs)
    ensures Base(Reading(tracks, b, diffs, author)) == |doc[b..]|
    ensures VisibleText(ApplyAtoms(Reading(tracks, b, diffs, author), doc[b..])) == NewText(diffs)
    decreases |diffs|
  {
    ReadingBase(tracks, b, diffs, author);
    if diffs == [] {
      var rest := doc[b..];
      KeepRun(|rest|, Leave, rest);
      assert ApplyAtoms(Repeat(Keep(Leave), |rest|), rest) == rest;
      VisibleTextOfShown(doc, content, tracks, b);
    } else if diffs[0].kind.Added? {
      var text := Typed(diffs[0].text, InsertProps(author), None);
      var y := Reading(tracks, b, diffs[1..], author);
      ReadingVisible(doc, content, tracks, b, diffs[1..], author);
      CountsAdds(text);
      ApplyConcat(Adds(text), y, doc[b..]);
      assert doc[b..][..0] == [] && doc[b..][0..] == doc[b..];
      AddRun(text);
      VisibleTextConcat(text, ApplyAtoms(y, doc[b..]));
      VisibleTextTyped(diffs[0].text, InsertProps(author), None);
    } else {
      ReadingVisibleSegment(doc, content, tracks, b, diffs, author);
    }
  }

  lemma {:induction false} ReadingVisibleSegment(doc: Doc, content: string, tracks: Tracks, b: nat, diffs: seq<Diff>,
                                                 author: Option<string>)
    requires Shows(doc, content, tracks) && b <= |doc|
    requires VisibleFrom(content, tracks, b) == OldText(diffs)
    requires diffs != [] && !diffs[0].kind.Added?
    ensures Base(Reading(tracks, b, diffs, author)) == |doc[b..]|
    ensures VisibleText(ApplyAtoms(Reading(tracks, b, diffs, author), doc[b..])) == NewText(diffs)
    decreases |diffs|, 0
  {
    hide *;
    ShownLength(doc, content, tracks);
    var diff, rest := diffs[0], diffs[1..];
    var e := SegmentEnd(tracks, b, |diff.text|);
    var x, y := Segment(tracks, b, diff.kind, |diff.text|, author), Reading(tracks, e, rest, author);
    ReadingSplits(tracks, b, diffs, author);
    TextsSplit(diffs);
    SegmentVisible(doc, content, tracks, b, diff.kind, diff.text, OldText(rest), author);
    ReadingVisible(doc, content, tracks, e, rest, author);
    ApplyInParts(x, y, doc[b..e], doc[e..]);
    assert doc[b..e] + doc[e..] == doc[b..];
    VisibleTextConcat(ApplyAtoms(x, doc[b..e]), ApplyAtoms(y, doc[e..]));
  }

  /**
    Applying the operation gives a document whose visible text is the text the
    diff leads to, with or without tracking.
  */
  lemma DiffReachesNewText(file: File, doc: Doc, diffs: seq<Diff>, author: Option<string>, ops: seq<ScanOp>)
    requires Shows(doc, file.content, TracksOf(file)) && OldText(diffs) == VisibleContent(file)
    requires SameEffect(Reading(TracksOf(file), 0, diffs, author), Atoms(ops))
    ensures Base(Atoms(ops)) == |doc|
    ensures VisibleText(doc) == OldText(diffs)
    ensures VisibleText(ApplyOps(ops, doc)) == NewText(diffs)
  {
    assert doc[0..] == doc;
    VisibleTextOfShown(doc, file.content, TracksOf(file), 0);
    ReadingVisible(doc, file.content, TracksOf(file), 0, diffs, author);
    SameEffectSameResult(Reading(TracksOf(file), 0, diffs, author), Atoms(ops), doc);
  }

  // ----- the fate of every single character -----

  /** For every visible character, whether the diff removes it. */
  function RemovedFlags(diffs: seq<Diff>): seq<bool> {
    if diffs == [] then []
    else (if diffs[0].kind.Added? then [] else seq(|diffs[0].text|, _ => diffs[0].kind.Removed?)) + RemovedFlags(diffs[1..])
  }

  /** The flag of one visible character, in the first piece or in the rest. */
  lemma FlagAt(diffs: seq<Diff>, k: nat)
    requires diffs != [] && !diffs[0].kind.Added? && k < |RemovedFlags(diffs)|
    ensures var n, rest := |diffs[0].text|, RemovedFlags(diffs[1..]);
      && |RemovedFlags(diffs)| == n + |rest|
      && RemovedFlags(diffs)[k] == if k < n then diffs[0].kind.Removed? else rest[k - n]
  {
  }

  /** How many visible characters lie in [b, i). */
  function VisibleBetween(tracks: Tracks, b: nat, i: nat): nat
    requires b <= i <= |tracks|
    decreases i - b
  {
    if b == i then 0 else (if Hidden(tracks[b]) then 0 else 1) + VisibleBetween(tracks, b + 1, i)
  }

  lemma {:induction false} VisibleBetweenSplit(tracks: Tracks, b: nat, m: nat, i: nat)
    requires b <= m <= i <= |tracks|
    ensures VisibleBetween(tracks, b, i) == VisibleBetween(tracks, b, m) + VisibleBetween(tracks, m, i)
    decreases m - b
  {
    if b < m {
      VisibleBetweenSplit(tracks, b + 1, m, i);
    }
  }

  lemma {:induction false} VisibleBetweenBound(tracks: Tracks, b: nat, i: nat)
    requires b <= i < |tracks| && !Hidden(tracks[i])
    ensures VisibleBetween(tracks, b, i) < VisibleCount(tracks, b)
    decreases i - b
  {
    if b < i {
      VisibleBetweenBound(tracks, b + 1, i);
    }
  }

  lemma {:induction false} RemovedFlagsLength(diffs: seq<Diff>)
    ensures |RemovedFlags(diffs)| == OldLength(diffs)
  {
    if diffs != [] {
      RemovedFlagsLength(diffs[1..]);
    }
  }

  lemma {:induction false} BaseAtomConcat(x: seq<Atom>, y: seq<Atom>, i: nat)
    requires i < Base(x) + Base(y)
    ensures Base(x + y) == Base(x) + Base(y)
    ensures BaseAtom(x + y, i) == if i < Base(x) then BaseAtom(x, i) else BaseAtom(y, i - Base(x))
  {
    CountsConcat(x, y);
    if x == [] {
      assert x + y == y;
    } else {
      assert (x + y)[0] == x[0] && (x + y)[1..] == x[1..] + y;
      if x[0].Add? {
        BaseAtomConcat(x[1..], y, i);
      } else if i > 0 {
        BaseAtomConcat(x[1..], y, i - 1);
      }
    }
  }

  lemma {:induction false} BaseAtomRepeat(a: Atom, n: nat, i: nat)
    requires i < n && !a.Add?
    ensures Base(Repeat(a, n)) == n && BaseAtom(Repeat(a, n), i) == a
  {
    CountsRepeat(a, n);
    if i > 0 {
      assert Repeat(a, n)[1..] == Repeat(a, n - 1);
      BaseAtomRepeat(a, n - 1, i - 1);
    }
  }

  /** Reading off, for one character, what the documentation says should happen to it. */
  function Promised(track: Option<TrackingProps>, removed: bool, author: Option<string>): Atom {
    if Hidden(track) || !removed then Keep(Leave)
    else if author.None? then Drop
    else if Proposed(track) then Drop
    else Keep(Assign(TrackingProps(TrackedDelete, author.value)))
  }

  /** Whether visible character i, in what is left from b on, is one the diff removes. */
  predicate RemovedAt(tracks: Tracks, b: nat, diffs: seq<Diff>, i: nat)
    requires b <= i < |tracks| && (!Hidden(tracks[i]) ==> VisibleBetween(tracks, b, i) < |RemovedFlags(diffs)|)
  {
    !Hidden(tracks[i]) && RemovedFlags(diffs)[VisibleBetween(tracks, b, i)]
  }

  lemma RemovedAtHere(tracks: Tracks, b: nat, diffs: seq<Diff>, i: nat, author: Option<string>)
    requires b <= i < |tracks| && (!Hidden(tracks[i]) ==> VisibleBetween(tracks, b, i) < |RemovedFlags(diffs)|)
    requires diffs != [] && !diffs[0].kind.Added? && VisibleBetween(tracks, b, i) < |diffs[0].text|
    ensures Promised(tracks[i], RemovedAt(tracks, b, diffs, i), author) == Promised(tracks[i], diffs[0].kind.Removed?, author)
  {
    if !Hidden(tracks[i]) { FlagAt(diffs, VisibleBetween(tracks, b, i)); }
  }

  lemma RemovedAtRest(tracks: Tracks, b: nat, diffs: seq<Diff>, i: nat, e: nat)
    requires b <= e <= i < |tracks| && (!Hidden(tracks[i]) ==> VisibleBetween(tracks, b, i) < |RemovedFlags(diffs)|)
    requires diffs != [] && !diffs[0].kind.Added? && VisibleBetween(tracks, b, e) == |diffs[0].text|
    ensures !Hidden(tracks[i]) ==> VisibleBetween(tracks, e, i) < |RemovedFlags(diffs[1..])|
    ensures RemovedAt(tracks, b, diffs, i) == RemovedAt(tracks, e, diffs[1..], i)
  {
    VisibleBetweenSplit(tracks, b, e, i);
    if !Hidden(tracks[i]) { FlagAt(diffs, VisibleBetween(tracks, b, i)); }
  }

  lemma {:induction false} SegmentAtom(tracks: Tracks, b: nat, kind: Kind, n: nat, author: Option<string>, i: nat)
    requires b <= i < |tracks| && i < SegmentEnd(tracks, b, n) && !kind.Added?
    ensures i - b < Base(Segment(tracks, b, kind, n, author))
    ensures BaseAtom(Segment(tracks, b, kind, n, author), i - b) == Promised(tracks[i], kind.Removed?, author)
    ensures VisibleBetween(tracks, b, i) < n
    decreases |tracks| - b
  {
    SegmentBase(tracks, b, kind, n, author);
    if b < i {
      SegmentAtom(tracks, b + 1, kind, if Hidden(tracks[b]) then n else n - 1, author, i);
    }
  }

  lemma {:induction false} SegmentEndCount(tracks: Tracks, b: nat, n: nat)
    requires b <= |tracks| && n <= VisibleCount(tracks, b)
    ensures VisibleBetween(tracks, b, SegmentEnd(tracks, b, n)) == n
    ensures VisibleCount(tracks, SegmentEnd(tracks, b, n)) == VisibleCount(tracks, b) - n
    decreases |tracks| - b
  {
    if n != 0 {
      SegmentEndCount(tracks, b + 1, if Hidden(tracks[b]) then n else n - 1);
    }
  }

  lemma {:induction false} ReadingAtom(tracks: Tracks, b: nat, diffs: seq<Diff>, author: Option<string>, i: nat)
    requires b <= i < |tracks| && VisibleCount(tracks, b) == OldLength(diffs)
    ensures i - b < Base(Reading(tracks, b, diffs, author))
    ensures |RemovedFlags(diffs)| == OldLength(diffs)
    ensures !Hidden(tracks[i]) ==> VisibleBetween(tracks, b, i) < |RemovedFlags(diffs)|
    ensures BaseAtom(Reading(tracks, b, diffs, author), i - b) == Promised(tracks[i], RemovedAt(tracks, b, diffs, i), author)
    decreases |diffs|
  {
    ReadingBase(tracks, b, diffs, author);
    RemovedFlagsLength(diffs);
    if !Hidden(tracks[i]) {
      VisibleBetweenBound(tracks, b, i);
    }
    if diffs == [] {
      BaseAtomRepeat(Keep(Leave), |tracks| - b, i - b);
    } else if diffs[0].kind.Added? {
      var text := Typed(diffs[0].text, InsertProps(author), None);
      CountsAdds(text);
      ReadingAtom(tracks, b, diffs[1..], author, i);
      ReadingBase(tracks, b, diffs[1..], author);
      BaseAtomConcat(Adds(text), Reading(tracks, b, diffs[1..], author), i - b);
    } else {
      ReadingAtomSegment(tracks, b, diffs, author, i);
    }
  }

  lemma {:induction false} ReadingAtomSegment(tracks: Tracks, b: nat, diffs: seq<Diff>, author: Option<string>, i: nat)
    requires b <= i < |tracks| && VisibleCount(tracks, b) == OldLength(diffs)
    requires diffs != [] && !diffs[0].kind.Added?
    requires |RemovedFlags(diffs)| == OldLength(diffs) && Base(Reading(tracks, b, diffs, author)) == |tracks| - b
    requires !Hidden(tracks[i]) ==> VisibleBetween(tracks, b, i) < |RemovedFlags(diffs)|
    ensures BaseAtom(Reading(tracks, b, diffs, author), i - b) == Promised(tracks[i], RemovedAt(tracks, b, diffs, i), author)
    decreases |diffs|, 0
  {
    hide *;
    var n := |diffs[0].text|;
    var e := SegmentEnd(tracks, b, n);
    ReadingSplits(tracks, b, diffs, author);
    SegmentEndCount(tracks, b, n);
    SegmentBase(tracks, b, diffs[0].kind, n, author);
    ReadingBase(tracks, e, diffs[1..], author);
    BaseAtomConcat(Segment(tracks, b, diffs[0].kind, n, author), Reading(tracks, e, diffs[1..], author), i - b);
    if i < e {
      SegmentAtom(tracks, b, diffs[0].kind, n, author, i);
      RemovedAtHere(tracks, b, diffs, i, author);
    } else {
      ReadingAtom(tracks, e, diffs[1..], author, i);
      RemovedAtRest(tracks, b, diffs, i, e);
    }
  }

  /** Base character i is kept with directive d, or it is not in the output at all. */
  lemma {:induction false} BaseAtomRendered(x: seq<Atom>, i: nat, k: nat)
    requires i < Base(x)
    ensures BaseAtom(x, i).Keep? ==> exists j :: 0 <= j < |Render(x, k)| && Render(x, k)[j] == Copy(k + i, BaseAtom(x, i).directive)
    ensures BaseAtom(x, i).Drop? ==> forall j :: 0 <= j < |Render(x, k)| && Render(x, k)[j].Copy? ==> Render(x, k)[j].index != k + i
    ensures !BaseAtom(x, i).Add?
  {
    RenderIndices(x, k);
    if x[0].Add? {
      BaseAtomRendered(x[1..], i, k);
      assert Render(x, k) == [New(x[0].ch)] + Render(x[1..], k);
      if BaseAtom(x, i).Keep? {
        var j :| 0 <= j < |Render(x[1..], k)| && Render(x[1..], k)[j] == Copy(k + i, BaseAtom(x, i).directive);
        assert Render(x, k)[j + 1] == Copy(k + i, BaseAtom(x, i).directive);
      }
    } else if i == 0 {
      RenderIndices(x[1..], k + 1);
      if x[0].Keep? {
        assert Render(x, k)[0] == Copy(k, x[0].directive);
      }
    } else {
      BaseAtomRendered(x[1..], i - 1, k + 1);
      if x[0].Keep? {
        assert Render(x, k) == [Copy(k, x[0].directive)] + Render(x[1..], k + 1);
        if BaseAtom(x, i).Keep? {
          var j :| 0 <= j < |Render(x[1..], k + 1)| && Render(x[1..], k + 1)[j] == Copy(k + i, BaseAtom(x, i).directive);
          assert Render(x, k)[j + 1] == Copy(k + i, BaseAtom(x, i).directive);
        }
      } else {
        assert Render(x, k) == Render(x[1..], k + 1);
      }
    }
  }

  lemma {:induction false} RenderIndices(x: seq<Atom>, k: nat)
    ensures forall j :: 0 <= j < |Render(x, k)| && Render(x, k)[j].Copy? ==> k <= Render(x, k)[j].index < k + Base(x)
  {
    if x != [] {
      RenderIndices(x[1..], if x[0].Add? then k else k + 1);
    }
  }

  /** Base character i comes through, with this directive on its tracking. */
  ghost predicate Survives(out: seq<Out>, i: nat, d: Directive) {
    exists j :: 0 <= j < |out| && out[j] == Copy(i, d)
  }

  ghost predicate Vanishes(out: seq<Out>, i: nat) {
    forall j :: 0 <= j < |out| && out[j].Copy? ==> out[j].index != i
  }

  /**
    The fate of base character i: a tracked delete comes through untouched, and
    so does a character that the diff does not remove. Of the removed ones, those
    already proposed as an insert, or all of them without tracking, are gone, and
    the others become tracked deletes by the author.
  */
  ghost predicate Decided(tracks: Tracks, diffs: seq<Diff>, author: Option<string>, out: seq<Out>, i: nat)
    requires i < |tracks|
  {
    && (Hidden(tracks[i]) ==> Survives(out, i, Leave))
    && (!Hidden(tracks[i]) ==> VisibleBetween(tracks, 0, i) < |RemovedFlags(diffs)|)
    && (!Hidden(tracks[i]) ==>
         var removed := RemovedFlags(diffs)[VisibleBetween(tracks, 0, i)];
         && (!removed ==> Survives(out, i, Leave))
         && (removed && (author.None? || Proposed(tracks[i])) ==> Vanishes(out, i))
         && (removed && author.Some? && !Proposed(tracks[i]) ==>
              Survives(out, i, Assign(TrackingProps(TrackedDelete, author.value)))))
  }

  /**
    Tracked deletes come through untouched. With tracking on, the characters
    physically removed are exactly the removed ones inside tracked inserts, and
    every other removed one is kept as a tracked delete by the new author.
    Without tracking, exactly the removed ones vanish.
  */
  lemma DiffDecidesEachCharacter(file: File, diffs: seq<Diff>, author: Option<string>, ops: seq<ScanOp>, i: nat)
    requires OldText(diffs) == VisibleContent(file) && i < |file.content|
    requires SameEffect(Reading(TracksOf(file), 0, diffs, author), Atoms(ops))
    ensures Decided(TracksOf(file), diffs, author, Render(Atoms(ops), 0), i)
  {
    var tracks := TracksOf(file);
    VisibleCountIsLength(file.content, tracks, 0);
    OldLengthIsLength(diffs);
    ReadingAtom(tracks, 0, diffs, author, i);
    BaseAtomRendered(Reading(tracks, 0, diffs, author), i, 0);
  }

  // ----- what is inserted, and how it is recorded -----

  /** The inserted characters of an output, in order. */
  function NewChars(out: seq<Out>): Doc {
    if out == [] then [] else (if out[0].New? then [out[0].ch] else []) + NewChars(out[1..])
  }

  /** The added pieces of a diff. */
  function AddedText(diffs: seq<Diff>): string {
    if diffs == [] then "" else (if diffs[0].kind.Added? then diffs[0].text else "") + AddedText(diffs[1..])
  }

  /** New text is a tracked insert by the author, or untracked if there is none, and on no comment. */
  predicate RecordedFor(author: Option<string>, ch: DocChar) {
    && ch.comments == {}
    && match author
       case Some(a) => ch.tracking == Some(TrackingProps(TrackedInsert, a))
       case None => ch.tracking.None?
  }

  /** These characters are that text, all of them recorded for the author. */
  predicate RecordedText(author: Option<string>, chars: Doc, text: string) {
    |chars| == |text| && forall j :: 0 <= j < |chars| ==> chars[j].c == text[j] && RecordedFor(author, chars[j])
  }

  lemma {:induction false} NewCharsConcat(a: seq<Out>, b: seq<Out>)
    ensures NewChars(a + b) == NewChars(a) + NewChars(b)
  {
    if a == [] {
      assert a + b == b;
    } else {
      assert (a + b)[0] == a[0] && (a + b)[1..] == a[1..] + b;
      NewCharsConcat(a[1..], b);
    }
  }

  lemma {:induction false} NewCharsNone(out: seq<Out>)
    requires forall j :: 0 <= j < |out| ==> out[j].Copy?
    ensures NewChars(out) == []
  {
    if out != [] { NewCharsNone(out[1..]); }
  }

  lemma {:induction false} NewCharsAll(out: seq<Out>)
    requires forall j :: 0 <= j < |out| ==> out[j].New?
    ensures |NewChars(out)| == |out| && forall j :: 0 <= j < |out| ==> NewChars(out)[j] == out[j].ch
  {
    if out != [] { NewCharsAll(out[1..]); }
  }

  lemma {:induction false} NewCharsHas(out: seq<Out>, j: nat)
    requires j < |out| && out[j].New?
    ensures out[j].ch in NewChars(out)
  {
    if j > 0 { NewCharsHas(out[1..], j - 1); }
  }

  predicate AddsNothing(x: seq<Atom>) {
    forall j :: 0 <= j < |x| ==> !x[j].Add?
  }

  lemma {:induction false} RenderKeeps(x: seq<Atom>, k: nat)
    requires AddsNothing(x)
    ensures forall j :: 0 <= j < |Render(x, k)| ==> Render(x, k)[j].Copy?
  {
    if x != [] { RenderKeeps(x[1..], k + 1); }
  }

  lemma {:induction false} SegmentAddsNothing(tracks: Tracks, b: nat, kind: Kind, n: nat, author: Option<string>)
    requires b <= |tracks|
    ensures AddsNothing(Segment(tracks, b, kind, n, author))
    decreases |tracks| - b
  {
    if n != 0 && b != |tracks| {
      var m := if Hidden(tracks[b]) then n else n - 1;
      var head := if Hidden(tracks[b]) then Keep(Leave) else Fate(kind, tracks[b], author);
      SegmentAddsNothing(tracks, b + 1, kind, m, author);
      assert Segment(tracks, b, kind, n, author) == [head] + Segment(tracks, b + 1, kind, m, author);
    }
  }

  lemma RecordedJoin(author: Option<string>, x: Doc, s: string, y: Doc, t: string)
    requires RecordedText(author, x, s) && RecordedText(author, y, t)
    ensures RecordedText(author, x + y, s + t)
  {
  }

  lemma TypedIsRecorded(author: Option<string>, text: string, k: nat)
    ensures RecordedText(author, NewChars(Render(Adds(Typed(text, InsertProps(author), None)), k)), text)
  {
    var typed := Typed(text, InsertProps(author), None);
    var none: set<string> := {};
    assert IdSet(None) == none;
    RenderAdds(typed, k);
    NewCharsAll(Render(Adds(typed), k));
  }

  /** The atoms of the first piece of a diff, and where the rest begins. */
  function FirstPiece(tracks: Tracks, b: nat, diffs: seq<Diff>, author: Option<string>): seq<Atom>
    requires b <= |tracks| && diffs != []
  {
    if diffs[0].kind.Added? then Adds(Typed(diffs[0].text, InsertProps(author), None))
    else Segment(tracks, b, diffs[0].kind, |diffs[0].text|, author)
  }

  function FirstEnd(tracks: Tracks, b: nat, diffs: seq<Diff>): (e: nat)
    requires b <= |tracks| && diffs != []
    ensures b <= e <= |tracks|
  {
    if diffs[0].kind.Added? then b else SegmentEnd(tracks, b, |diffs[0].text|)
  }

  lemma FirstAndRest(tracks: Tracks, b: nat, diffs: seq<Diff>, author: Option<string>)
    requires b <= |tracks| && diffs != []
    ensures Reading(tracks, b, diffs, author)
         == FirstPiece(tracks, b, diffs, author) + Reading(tracks, FirstEnd(tracks, b, diffs), diffs[1..], author)
  {
  }

  lemma PieceRecords(tracks: Tracks, b: nat, diffs: seq<Diff>, author: Option<string>, k: nat)
    requires b <= |tracks| && diffs != []
    ensures RecordedText(author, NewChars(Render(FirstPiece(tracks, b, diffs, author), k)),
      if diffs[0].kind.Added? then diffs[0].text else "")
  {
    if diffs[0].kind.Added? {
      TypedIsRecorded(author, diffs[0].text, k);
    } else {
      SegmentAddsNothing(tracks, b, diffs[0].kind, |diffs[0].text|, author);
      RenderKeeps(FirstPiece(tracks, b, diffs, author), k);
      NewCharsNone(Render(FirstPiece(tracks, b, diffs, author), k));
    }
  }

  /** How many visible characters a piece covers. */
  function Covers(diff: Diff): nat {
    if diff.kind.Added? then 0 else |diff.text|
  }

  lemma CoversFirst(diffs: seq<Diff>)
    requires diffs != []
    ensures OldLength(diffs) == Covers(diffs[0]) + OldLength(diffs[1..])
    ensures AddedText(diffs) == (if diffs[0].kind.Added? then diffs[0].text else "") + AddedText(diffs[1..])
  {
  }

  /** The first piece covers its own visible characters and ends right after the last of them. */
  lemma PieceCovers(tracks: Tracks, b: nat, diffs: seq<Diff>, author: Option<string>)
    requires b <= |tracks| && diffs != [] && Covers(diffs[0]) <= VisibleCount(tracks, b)
    ensures var n := Covers(diffs[0]);
      && var e := FirstEnd(tracks, b, diffs);
      && Base(FirstPiece(tracks, b, diffs, author)) == e - b
      && VisibleBetween(tracks, b, e) == n && VisibleCount(tracks, e) == VisibleCount(tracks, b) - n
      && (e > b ==> !Hidden(tracks[e - 1]))
  {
    if diffs[0].kind.Added? {
      CountsAdds(Typed(diffs[0].text, InsertProps(author), None));
    } else {
      var n := |diffs[0].text|;
      SegmentBase(tracks, b, diffs[0].kind, n, author);
      SegmentEndCount(tracks, b, n);
      if n > 0 { SegmentEndsAtText(tracks, b, n); }
    }
  }

  lemma JoinPieces(author: Option<string>, piece: seq<Atom>, x: seq<Atom>, b: nat, s: string, t: string)
    requires RecordedText(author, NewChars(Render(piece, b)), s)
    requires RecordedText(author, NewChars(Render(x, b + Base(piece))), t)
    ensures Base(piece + x) == Base(piece) + Base(x)
    ensures RecordedText(author, NewChars(Render(piece + x, b)), s + t)
  {
    hide *;
    CountsConcat(piece, x);
    RenderConcat(piece, x, b);
    NewCharsConcat(Render(piece, b), Render(x, b + Base(piece)));
    RecordedJoin(author, NewChars(Render(piece, b)), s, NewChars(Render(x, b + Base(piece))), t);
  }

  lemma NoPieces(tracks: Tracks, b: nat, author: Option<string>)
    requires b <= |tracks|
    ensures Base([]) == 0 && VisibleBetween(tracks, b, b) == 0 == OldLength([])
    ensures RecordedText(author, NewChars(Render([], b)), AddedText([]))
  {
  }

  /** The atoms of the first pieces of a diff, and where the rest begins: right after the last visible character. */
  lemma {:induction false} FirstPieces(tracks: Tracks, b: nat, first: seq<Diff>, rest: seq<Diff>, author: Option<string>)
    returns (x: seq<Atom>, e: nat)
    requires b <= |tracks| && OldLength(first) <= VisibleCount(tracks, b)
    ensures b <= e <= |tracks| && Reading(tracks, b, first + rest, author) == x + Reading(tracks, e, rest, author)
    ensures Base(x) == e - b && VisibleBetween(tracks, b, e) == OldLength(first)
    ensures e > b ==> !Hidden(tracks[e - 1])
    ensures RecordedText(author, NewChars(Render(x, b)), AddedText(first))
    decreases |first|
  {
    hide *;
    if first == [] {
      NoPieces(tracks, b, author);
      x, e := [], b;
      assert first + rest == rest && [] + Reading(tracks, b, rest, author) == Reading(tracks, b, rest, author);
    } else {
      var diffs, more := first + rest, first[1..];
      assert diffs[0] == first[0] && diffs[1..] == more + rest;
      CoversFirst(first);
      var piece, m := FirstPiece(tracks, b, diffs, author), FirstEnd(tracks, b, diffs);
      FirstAndRest(tracks, b, diffs, author);
      PieceCovers(tracks, b, diffs, author);
      PieceRecords(tracks, b, diffs, author, b);
      x, e := FirstPieces(tracks, m, more, rest, author);
      VisibleBetweenSplit(tracks, b, m, e);
      Reassociate(piece, x, Reading(tracks, e, rest, author));
      JoinPieces(author, piece, x, b, if first[0].kind.Added? then first[0].text else "", AddedText(more));
      x := piece + x;
    }
  }

  lemma {:induction false} OldTextConcat(a: seq<Diff>, b: seq<Diff>)
    ensures OldText(a + b) == OldText(a) + OldText(b)
  {
    if a == [] {
      assert a + b == b;
    } else {
      assert (a + b)[0] == a[0] && (a + b)[1..] == a[1..] + b;
      OldTextConcat(a[1..], b);
    }
  }

  lemma RecordedEach(author: Option<string>, chars: Doc, text: string, ch: DocChar)
    requires RecordedText(author, chars, text) && ch in chars
    ensures RecordedFor(author, ch)
  {
  }

  lemma RestAddsNothing(tracks: Tracks, e: nat, author: Option<string>)
    requires e <= |tracks|
    ensures RecordedText(author, NewChars(Render(Reading(tracks, e, [], author), e)), "")
  {
    var rest := Repeat(Keep(Leave), |tracks| - e);
    RenderKeeps(rest, e);
    NewCharsNone(Render(rest, e));
    var none: seq<Diff> := [];
    assert Reading(tracks, e, none, author) == rest;
  }

  lemma ReadingRecords(tracks: Tracks, diffs: seq<Diff>, author: Option<string>)
    requires OldLength(diffs) <= VisibleCount(tracks, 0)
    ensures RecordedText(author, NewChars(Render(Reading(tracks, 0, diffs, author), 0)), AddedText(diffs))
  {
    hide *;
    var x, e := FirstPieces(tracks, 0, diffs, [], author);
    assert diffs + [] == diffs && AddedText(diffs) + "" == AddedText(diffs);
    RestAddsNothing(tracks, e, author);
    JoinPieces(author, x, Reading(tracks, e, [], author), 0, AddedText(diffs), "");
  }

  /**
    What is inserted is the added pieces of the diff, in order; with tracking on
    every character of them is a tracked insert by the author, and with tracking
    off none is tracked. No comment covers them.
  */
  lemma DiffRecordsInsertions(file: File, diffs: seq<Diff>, author: Option<string>, ops: seq<ScanOp>)
    requires OldText(diffs) == VisibleContent(file)
    requires SameEffect(Reading(TracksOf(file), 0, diffs, author), Atoms(ops))
    ensures var out := Render(Atoms(ops), 0);
      && RecordedText(author, NewChars(out), AddedText(diffs))
      && forall j :: 0 <= j < |out| && out[j].New? ==> RecordedFor(author, out[j].ch)
  {
    var out := Render(Atoms(ops), 0);
    assert out == Render(Reading(TracksOf(file), 0, diffs, author), 0);
    VisibleCountIsLength(file.content, TracksOf(file), 0);
    OldLengthIsLength(diffs);
    ReadingRecords(TracksOf(file), diffs, author);
    hide *;
    forall j | 0 <= j < |out| && out[j].New? ensures RecordedFor(author, out[j].ch) {
      NewCharsHas(out, j);
      RecordedEach(author, NewChars(out), AddedText(diffs), out[j].ch);
    }
  }

  /**
    Each added piece of the diff lands, recorded for the author, right after the
    last visible character that the diff has before it: what comes before it in
    the output are characters up to there and the earlier added pieces, and what
    follows are characters from there on.
  */
  lemma DiffPlacesInsertions(file: File, before: seq<Diff>, text: string, after: seq<Diff>, author: Option<string>,
                             ops: seq<ScanOp>)
    returns (ahead: seq<Out>, added: seq<Out>, behind: seq<Out>, at: nat)
    requires OldText(before + [Diff(Added, text)] + after) == VisibleContent(file)
    requires SameEffect(Reading(TracksOf(file), 0, before + [Diff(Added, text)] + after, author), Atoms(ops))
    ensures Render(Atoms(ops), 0) == ahead + added + behind
    ensures at <= |file.content| && VisibleBetween(TracksOf(file), 0, at) == |OldText(before)|
    ensures at > 0 ==> !Hidden(TracksOf(file)[at - 1])
    ensures forall j :: 0 <= j < |ahead| && ahead[j].Copy? ==> ahead[j].index < at
    ensures RecordedText(author, NewChars(ahead), AddedText(before))
    ensures |added| == |text| && RecordedText(author, NewChars(added), text)
    ensures forall j :: 0 <= j < |behind| && behind[j].Copy? ==> at <= behind[j].index
  {
    hide *;
    var tracks, rest := TracksOf(file), [Diff(Added, text)] + after;
    Reassociate(before, [Diff(Added, text)], after);
    OldPartFits(file, before, rest);
    SameRender(Reading(tracks, 0, before + rest, author), Atoms(ops));
    var x, e := FirstPieces(tracks, 0, before, rest, author);
    added, behind := AddedFirst(tracks, e, text, after, author);
    ahead, at := Render(x, 0), e;
    RenderConcat(x, Reading(tracks, e, rest, author), 0);
    RenderIndices(x, 0);
    Reassociate(ahead, added, behind);
  }

  lemma OldPartFits(file: File, before: seq<Diff>, rest: seq<Diff>)
    requires OldText(before + rest) == VisibleContent(file)
    ensures |TracksOf(file)| == |file.content|
    ensures |OldText(before)| == OldLength(before) <= VisibleCount(TracksOf(file), 0)
  {
    OldTextConcat(before, rest);
    OldLengthIsLength(before);
    VisibleCountIsLength(file.content, TracksOf(file), 0);
  }

  lemma SameRender(x: seq<Atom>, y: seq<Atom>)
    requires SameEffect(x, y)
    ensures Render(x, 0) == Render(y, 0)
  {
  }

  lemma AddedFirst(tracks: Tracks, e: nat, text: string, after: seq<Diff>, author: Option<string>)
    returns (added: seq<Out>, behind: seq<Out>)
    requires e <= |tracks|
    ensures Render(Reading(tracks, e, [Diff(Added, text)] + after, author), e) == added + behind
    ensures |added| == |text| && RecordedText(author, NewChars(added), text)
    ensures forall j :: 0 <= j < |behind| && behind[j].Copy? ==> e <= behind[j].index
  {
    var diffs, typed := [Diff(Added, text)] + after, Typed(text, InsertProps(author), None);
    assert diffs[1..] == after;
    var y := Reading(tracks, e, after, author);
    assert Reading(tracks, e, diffs, author) == Adds(typed) + y;
    CountsAdds(typed);
    RenderAdds(typed, e);
    TypedIsRecorded(author, text, e);
    hide *;
    RenderConcat(Adds(typed), y, e);
    RenderIndices(y, e);
    added, behind := Render(Adds(typed), e), Render(y, e);
  }

  // ----- insertions never land inside a tracked delete -----

  lemma {:induction false} SegmentKeepsDeletesTogether(tracks: Tracks, b: nat, kind: Kind, n: nat, author: Option<string>,
                                                       i: nat) returns (y: seq<Atom>, z: seq<Atom>)
    requires b <= i < |tracks| && i + 1 < SegmentEnd(tracks, b, n)
    requires Hidden(tracks[i]) && Hidden(tracks[i + 1])
    ensures Segment(tracks, b, kind, n, author) == y + [Keep(Leave), Keep(Leave)] + z && Base(y) == i - b
    decreases |tracks| - b
  {
    if b == i {
      y, z := [], Segment(tracks, b + 2, kind, n, author);
      assert Segment(tracks, b + 1, kind, n, author) == [Keep(Leave)] + z;
    } else {
      y, z := SegmentKeepsDeletesTogether(tracks, b + 1, kind, if Hidden(tracks[b]) then n else n - 1, author, i);
      var head := if Hidden(tracks[b]) then Keep(Leave) else Fate(kind, tracks[b], author);
      assert [head] + (y + [Keep(Leave), Keep(Leave)] + z) == ([head] + y) + [Keep(Leave), Keep(Leave)] + z;
      assert ([head] + y)[1..] == y;
      y := [head] + y;
    }
  }

  /** A segment never ends between two tracked deletes. */
  lemma {:induction false} SegmentEndsAtText(tracks: Tracks, b: nat, n: nat)
    requires b <= |tracks| && 0 < n <= VisibleCount(tracks, b)
    ensures var e := SegmentEnd(tracks, b, n); e > b && !Hidden(tracks[e - 1])
    decreases |tracks| - b
  {
    if Hidden(tracks[b]) {
      SegmentEndsAtText(tracks, b + 1, n);
    } else if n > 1 {
      SegmentEndsAtText(tracks, b + 1, n - 1);
    }
  }

  lemma {:induction false} ReadingKeepsDeletesTogether(tracks: Tracks, b: nat, diffs: seq<Diff>, author: Option<string>,
                                                       i: nat) returns (y: seq<Atom>, z: seq<Atom>)
    requires b <= i && i + 1 < |tracks| && VisibleCount(tracks, b) == OldLength(diffs)
    requires Hidden(tracks[i]) && Hidden(tracks[i + 1])
    ensures Reading(tracks, b, diffs, author) == y + [Keep(Leave), Keep(Leave)] + z && Base(y) == i - b
    decreases |diffs|
  {
    if diffs == [] {
      y, z := Repeat(Keep(Leave), i - b), Repeat(Keep(Leave), |tracks| - i - 2);
      CountsRepeat(Keep(Leave), i - b);
    } else if diffs[0].kind.Added? {
      var added := Adds(Typed(diffs[0].text, InsertProps(author), None));
      CountsAdds(Typed(diffs[0].text, InsertProps(author), None));
      y, z := ReadingKeepsDeletesTogether(tracks, b, diffs[1..], author, i);
      CountsConcat(added, y);
      assert added + (y + [Keep(Leave), Keep(Leave)] + z) == (added + y) + [Keep(Leave), Keep(Leave)] + z;
      y := added + y;
    } else {
      y, z := PieceKeepsDeletesTogether(tracks, b, diffs, author, i);
    }
  }

  lemma {:induction false} PieceKeepsDeletesTogether(tracks: Tracks, b: nat, diffs: seq<Diff>, author: Option<string>,
                                                     i: nat) returns (y: seq<Atom>, z: seq<Atom>)
    requires b <= i && i + 1 < |tracks| && VisibleCount(tracks, b) == OldLength(diffs)
    requires Hidden(tracks[i]) && Hidden(tracks[i + 1]) && diffs != [] && !diffs[0].kind.Added?
    ensures Reading(tracks, b, diffs, author) == y + [Keep(Leave), Keep(Leave)] + z && Base(y) == i - b
    decreases |diffs|, 0
  {
    var n := |diffs[0].text|;
    var e := SegmentEnd(tracks, b, n);
    ReadingSplits(tracks, b, diffs, author);
    assert n == 0 ==> e == b;
    hide *;
    var x, rest := Segment(tracks, b, diffs[0].kind, n, author), Reading(tracks, e, diffs[1..], author);
    SegmentEndCount(tracks, b, n);
    SegmentBase(tracks, b, diffs[0].kind, n, author);
    if n > 0 { SegmentEndsAtText(tracks, b, n); }
    if i + 1 < e {
      y, z := SegmentKeepsDeletesTogether(tracks, b, diffs[0].kind, n, author, i);
      Reassociate(y + [Keep(Leave), Keep(Leave)], z, rest);
      z := z + rest;
    } else {
      y, z := ReadingKeepsDeletesTogether(tracks, e, diffs[1..], author, i);
      CountsConcat(x, y);
      Reassociate(x, y + [Keep(Leave), Keep(Leave)], z);
      Reassociate(x, y, [Keep(Leave), Keep(Leave)]);
      y := x + y;
    }
  }

  /** Base characters i and i + 1 come out untouched and next to each other. */
  ghost predicate Together(out: seq<Out>, i: nat) {
    exists j :: 0 <= j < |out| - 1 && out[j] == Copy(i, Leave) && out[j + 1] == Copy(i + 1, Leave)
  }

  lemma RenderTogether(y: seq<Atom>, z: seq<Atom>)
    ensures Together(Render(y + [Keep(Leave), Keep(Leave)] + z, 0), Base(y))
  {
    var pair, i := [Keep(Leave), Keep(Leave)], Base(y);
    RenderConcat(y + pair, z, 0);
    RenderConcat(y, pair, 0);
    assert pair[1..] == [Keep(Leave)];
    assert Render(pair, i) == [Copy(i, Leave)] + ([Copy(i + 1, Leave)] + Render([], i + 2));
    var out := Render(y + pair + z, 0);
    var j := |Render(y, 0)|;
    assert out[j] == Copy(i, Leave) && out[j + 1] == Copy(i + 1, Leave);
  }

  /** Two neighbouring characters of a tracked delete stay neighbours: nothing is inserted inside it. */
  lemma DiffInsertsOutsideDeletes(file: File, diffs: seq<Diff>, author: Option<string>, ops: seq<ScanOp>, i: nat)
    requires OldText(diffs) == VisibleContent(file) && i + 1 < |file.content|
    requires SameEffect(Reading(TracksOf(file), 0, diffs, author), Atoms(ops))
    requires Hidden(TracksOf(file)[i]) && Hidden(TracksOf(file)[i + 1])
    ensures Together(Render(Atoms(ops), 0), i)
  {
    var tracks := TracksOf(file);
    VisibleCountIsLength(file.content, tracks, 0);
    OldLengthIsLength(diffs);
    var y, z := ReadingKeepsDeletesTogether(tracks, 0, diffs, author, i);
    RenderTogether(y, z);
  }
}
