/**
  What repeated comment ids do to text operations (overleaf-editor-core: scan_op.js
  lines 170-205, text_operation.js lines 159-192, 496-641 and 652-791).

  Two inserts are merged when their id lists are equally long and the first is
  among the second. A list that repeats an id can pass this test against a list
  that names more comments, and merging then drops those. Text and tracking never
  suffer; comment marks do, exactly when a list repeats an id.
*/
module TextIds {
  import opened Common
  import opened TextModel
  import opened TextOperations
  import opened TextTransform
  import opened TextCompose

  // ----- every list with a repetition can be confused with one without -----

  function Joined(s: seq<string>): string {
    if s == [] then "" else s[0] + Joined(s[1..])
  }

  lemma {:induction false} JoinedIsLong(s: seq<string>, x: string)
    requires x in s
    ensures |x| <= |Joined(s)|
  {
    if x != s[0] {
      assert x in s[1..];
      JoinedIsLong(s[1..], x);
    }
  }

  function Extended(s: seq<string>, n: nat): seq<string>
    decreases n
  {
    if n == 0 then s else Extended(s + [Joined(s) + "a"], n - 1)
  }

  lemma {:induction false} ExtendedFacts(s: seq<string>, n: nat)
    requires NoRepeat(Some(s))
    ensures |Extended(s, n)| == |s| + n && s <= Extended(s, n) && NoRepeat(Some(Extended(s, n)))
    decreases n
  {
    if n > 0 {
      var x := Joined(s) + "a";
      if x in s { JoinedIsLong(s, x); }
      ExtendedFacts(s + [x], n - 1);
    }
  }

  /** Each id once. */
  function Once(s: seq<string>): seq<string> {
    if s == [] then [] else if Last(s) in Front(s) then Once(Front(s)) else Once(Front(s)) + [Last(s)]
  }

  lemma {:induction false} OnceFacts(s: seq<string>)
    ensures NoRepeat(Some(Once(s))) && |Once(s)| <= |s|
    ensures forall x :: x in Once(s) <==> x in s
    ensures |Once(s)| == |s| <==> NoRepeat(Some(s))
  {
    if s != [] {
      var front, last := Front(s), Last(s);
      OnceFacts(front);
      assert s == front + [last];
      NoRepeatSnoc(front, last);
      NoRepeatSnoc(Once(front), last);
      hide NoRepeat;
    }
  }

  /** The test takes these two lists for the same ids, but they are not. */
  ghost predicate Confused(ids: CommentIds, jds: CommentIds) { SameIds(ids, jds) && IdSet(ids) != IdSet(jds) }

  lemma RepetitionsAreConfused(ids: CommentIds) returns (jds: CommentIds)
    requires !NoRepeat(ids)
    ensures NoRepeat(jds) && Confused(ids, jds)
  {
    var s := ids.value;
    OnceFacts(s);
    var n: nat := |s| - |Once(s)|;
    var t := Extended(Once(s), n);
    ExtendedFacts(Once(s), n);
    jds := Some(t);
    assert forall x :: x in Once(s) ==> x in t;
    var extra := t[|Once(s)|];
    assert forall k :: 0 <= k < |Once(s)| ==> Once(s)[k] == t[k] != extra;
    assert extra !in Once(s);
    assert extra in IdSet(jds) && extra !in IdSet(ids);
  }

  // ----- operations and documents without comment marks -----

  function BlindOp(op: ScanOp): ScanOp {
    if op.Insert? then Insert(op.text, op.props, None) else op
  }

  function Blind(ops: seq<ScanOp>): (r: seq<ScanOp>)
    ensures |r| == |ops| && forall i :: 0 <= i < |ops| ==> r[i] == BlindOp(ops[i])
  {
    seq(|ops|, i requires 0 <= i < |ops| => BlindOp(ops[i]))
  }

  function BlindChar(ch: DocChar): DocChar { ch.(comments := {}) }

  function BlindDoc(doc: Doc): (r: Doc)
    ensures |r| == |doc| && forall i :: 0 <= i < |doc| ==> r[i] == BlindChar(doc[i])
  {
    seq(|doc|, i requires 0 <= i < |doc| => BlindChar(doc[i]))
  }

  function BlindAtom(a: Atom): Atom { if a.Add? then Add(BlindChar(a.ch)) else a }

  function BlindAtoms(x: seq<Atom>): (r: seq<Atom>)
    ensures |r| == |x| && forall i :: 0 <= i < |x| ==> r[i] == BlindAtom(x[i])
  {
    seq(|x|, i requires 0 <= i < |x| => BlindAtom(x[i]))
  }

  lemma BlindExpand(op: ScanOp)
    ensures Expand(BlindOp(op)) == BlindAtoms(Expand(op))
  {
    if op.Insert? {
      var none: set<string> := {};
      assert IdSet(None) == none;
      var x, y := Expand(BlindOp(op)), BlindAtoms(Expand(op));
      forall i | 0 <= i < |op.text| ensures x[i] == y[i] {
        assert x[i] == Add(DocChar(op.text[i], op.props, none));
      }
    }
  }

  lemma {:induction false} AtomsOfBlind(ops: seq<ScanOp>)
    ensures Atoms(Blind(ops)) == BlindAtoms(Atoms(ops))
  {
    if ops != [] {
      assert Atoms(ops) == Expand(ops[0]) + Atoms(ops[1..]);
      assert Blind(ops)[0] == BlindOp(ops[0]) && Blind(ops)[1..] == Blind(ops[1..]);
      assert Atoms(Blind(ops)) == Expand(Blind(ops)[0]) + Atoms(Blind(ops)[1..]);
      hide *;
      AtomsOfBlind(ops[1..]);
      BlindExpand(ops[0]);
      BlindAtomsJoin(Expand(ops[0]), Atoms(ops[1..]));
    }
  }

  lemma BlindAtomsJoin(x: seq<Atom>, y: seq<Atom>)
    ensures BlindAtoms(x + y) == BlindAtoms(x) + BlindAtoms(y)
  {
  }

  lemma {:induction false} BlindAtomsApply(x: seq<Atom>, doc: Doc)
    ensures Base(BlindAtoms(x)) == Base(x) && Target(BlindAtoms(x)) == Target(x)
    ensures Base(x) == |doc| ==> ApplyAtoms(BlindAtoms(x), BlindDoc(doc)) == BlindDoc(ApplyAtoms(x, doc))
  {
    if x != [] {
      assert BlindAtoms(x)[1..] == BlindAtoms(x[1..]);
      if x[0].Add? || doc == [] {
        BlindAtomsApply(x[1..], doc);
      } else {
        assert BlindDoc(doc)[1..] == BlindDoc(doc[1..]);
        BlindAtomsApply(x[1..], doc[1..]);
      }
    }
  }

  lemma BlindFacts(ops: seq<ScanOp>, doc: Doc)
    ensures Base(Atoms(Blind(ops))) == Base(Atoms(ops)) && Target(Atoms(Blind(ops))) == Target(Atoms(ops))
    ensures DistinctIds(Blind(ops)) && (Proper(ops) ==> Proper(Blind(ops)))
    ensures Base(Atoms(ops)) == |doc| ==> ApplyOps(Blind(ops), BlindDoc(doc)) == BlindDoc(ApplyOps(ops, doc))
  {
    AtomsOfBlind(ops);
    BlindAtomsApply(Atoms(ops), doc);
  }

  // ----- the builder, up to comment marks -----

  lemma BlindSnoc(ops: seq<ScanOp>, op: ScanOp)
    ensures Blind(ops + [op]) == Blind(ops) + [BlindOp(op)]
    ensures Atoms(Blind(ops + [op])) == Atoms(Blind(ops)) + Expand(BlindOp(op))
  {
    AtomsSnoc(Blind(ops), BlindOp(op));
  }

  lemma BlindPushMerging(ops: seq<ScanOp>, op: ScanOp)
    ensures Atoms(Blind(PushMerging(ops, op))) == Atoms(Blind(ops)) + Expand(BlindOp(op))
  {
    if ops != [] && CanMerge(Last(ops), op) {
      var front, last := Front(ops), Last(ops);
      assert ops == front + [last];
      BlindSnoc(front, last);
      BlindSnoc(front, Merge(last, op));
      MergeExpands(BlindOp(last), BlindOp(op));
    } else {
      BlindSnoc(ops, op);
    }
  }

  /** Up to comment marks, no builder call changes the effect. */
  lemma BlindPush(ops: seq<ScanOp>, op: ScanOp)
    ensures SameEffect(Atoms(Blind(Push(ops, op))), Atoms(Blind(ops)) + Expand(BlindOp(op)))
  {
    if IsZero(op) {
      assert Expand(BlindOp(op)) == [];
      assert Atoms(Blind(ops)) + [] == Atoms(Blind(ops));
    } else if op.Insert? && ops != [] && Last(ops).Remove? {
      var front, last := Front(ops), Last(ops);
      assert ops == front + [last];
      BlindSnoc(front, last);
      BlindPushMerging(front, op);
      BlindSnoc(PushMerging(front, op), last);
      InsertRemoveCommute(Atoms(Blind(front)), Typed(op.text, op.props, None), last.len);
    } else {
      BlindPushMerging(ops, op);
    }
  }

  /** A list, and one without ids that does the same up to marks. */
  ghost predicate Shadows(q: seq<ScanOp>, p: seq<ScanOp>) {
    DistinctIds(q) && SameEffect(Atoms(Blind(p)), Atoms(q))
  }

  lemma ShadowPush(q: seq<ScanOp>, p: seq<ScanOp>, op: ScanOp)
    requires Shadows(q, p)
    ensures Shadows(Push(q, BlindOp(op)), Push(p, op))
  {
    BlindPush(p, op);
    PushDistinct(q, BlindOp(op));
    PushEffect(q, BlindOp(op));
    SameEffectConcat(Atoms(Blind(p)), Atoms(q), Expand(BlindOp(op)));
  }

  lemma BlindRest(ops: seq<ScanOp>, n: nat)
    requires ops != [] && n <= Width(ops[0])
    ensures Blind(ops) != [] && Blind(ops)[1..] == Blind(ops[1..])
    ensures Advance(Blind(ops), n) == Blind(Advance(ops, n))
  {
  }

  // ----- transform -----

  lemma ShadowEmit(q: seq<ScanOp>, p: seq<ScanOp>, x: seq<Atom>, n: nat)
    requires Shadows(q, p) && |x| <= 1 && (x == [] || !x[0].Add?)
    ensures Shadows(PushOption(q, Emit(x, n)), PushOption(p, Emit(x, n)))
  {
    if x != [] { ShadowPush(q, p, Emit(x, n).value); }
  }

  /** The loop takes the same turns on operations without ids. */
  lemma {:induction false} ShadowTransform(s1: seq<ScanOp>, s2: seq<ScanOp>, p1: seq<ScanOp>, p2: seq<ScanOp>,
                                           q1: seq<ScanOp>, q2: seq<ScanOp>, r: (seq<ScanOp>, seq<ScanOp>),
                                           t: (seq<ScanOp>, seq<ScanOp>))
    requires Heading(s1, s2, p1, p2, r) && Heading(Blind(s1), Blind(s2), q1, q2, t)
    requires Shadows(q1, p1) && Shadows(q2, p2)
    ensures Shadows(t.0, r.0) && Shadows(t.1, r.1)
    decreases Size(s1) + Size(s2)
  {
    hide Heading, TransformFrom, Shadows, Size, PushOption, Emit, PushInsert, PushMerging, Advance;
    if s1 == [] && s2 == [] {
      assert Blind(s1) == [] && Blind(s2) == [];
      HeadingEnd(p1, p2, r);
      HeadingEnd(q1, q2, t);
    } else if s1 != [] && s1[0].Insert? {
      BlindRest(s1, 0);
      HeadingInsertLeft(s1, s2, p1, p2, r);
      HeadingInsertLeft(Blind(s1), Blind(s2), q1, q2, t);
      ShadowPush(q1, p1, s1[0]);
      ShadowPush(q2, p2, Retain(|s1[0].text|, Leave));
      ShadowTransform(s1[1..], s2, Push(p1, s1[0]), PushRetain(p2, |s1[0].text|, Leave),
        Push(q1, BlindOp(s1[0])), PushRetain(q2, |s1[0].text|, Leave), r, t);
    } else if s2 != [] && s2[0].Insert? {
      BlindRest(s2, 0);
      HeadingInsertRight(s1, s2, p1, p2, r);
      HeadingInsertRight(Blind(s1), Blind(s2), q1, q2, t);
      ShadowPush(q1, p1, Retain(|s2[0].text|, Leave));
      ShadowPush(q2, p2, s2[0]);
      ShadowTransform(s1, s2[1..], PushRetain(p1, |s2[0].text|, Leave), Push(p2, s2[0]),
        PushRetain(q1, |s2[0].text|, Leave), Push(q2, BlindOp(s2[0])), r, t);
    } else {
      HeadingBase(s1, s2, p1, p2, r);
      HeadingBase(Blind(s1), Blind(s2), q1, q2, t);
      var n, pair := Min(s1[0].len, s2[0].len), AtomPair(Unit(s1[0]), Unit(s2[0]));
      BlindRest(s1, n);
      BlindRest(s2, n);
      ShadowEmit(q1, p1, pair.0, n);
      ShadowEmit(q2, p2, pair.1, n);
      ShadowTransform(Advance(s1, n), Advance(s2, n), PushOption(p1, Emit(pair.0, n)), PushOption(p2, Emit(pair.1, n)),
        PushOption(q1, Emit(pair.0, n)), PushOption(q2, Emit(pair.1, n)), r, t);
    }
  }

  lemma NothingYet()
    ensures Shadows([], []) && Canonical([])
  {
    assert Blind([]) == [];
  }

  lemma ShadowResult(q: seq<ScanOp>, p: seq<ScanOp>, doc: Doc)
    requires Shadows(q, p) && Base(Atoms(q)) == |doc|
    ensures Base(Atoms(p)) == |doc| && BlindDoc(ApplyOps(p, doc)) == ApplyOps(q, BlindDoc(doc))
  {
    BlindFacts(p, doc);
    SameEffectSameResult(Atoms(Blind(p)), Atoms(q), BlindDoc(doc));
  }

  /** Up to marks, transforming is what it is for the same operations without ids. */
  lemma TransformShadowed(a: seq<ScanOp>, b: seq<ScanOp>, doc: Doc)
    requires Proper(a) && Proper(b) && Base(Atoms(a)) == Base(Atoms(b)) == |doc|
    ensures Proper(Blind(a)) && Proper(Blind(b)) && DistinctIds(Blind(a)) && DistinctIds(Blind(b))
    ensures Base(Atoms(Blind(a))) == Base(Atoms(Blind(b))) == |BlindDoc(doc)|
    ensures var r, t := TransformOps(a, b), TransformOps(Blind(a), Blind(b));
      && Base(Atoms(t.1)) == Target(Atoms(Blind(a))) && Base(Atoms(r.1)) == Target(Atoms(a))
      && Base(Atoms(t.0)) == Target(Atoms(Blind(b))) && Base(Atoms(r.0)) == Target(Atoms(b))
      && BlindDoc(ApplyOps(r.1, ApplyOps(a, doc))) == ApplyOps(t.1, ApplyOps(Blind(a), BlindDoc(doc)))
      && BlindDoc(ApplyOps(r.0, ApplyOps(b, doc))) == ApplyOps(t.0, ApplyOps(Blind(b), BlindDoc(doc)))
  {
    hide TransformFrom, Shadows, SameEffect, Canonical, Proper, DistinctIds, Blind, BlindDoc, ApplyAtoms, Atoms;
    BlindFacts(a, doc);
    BlindFacts(b, doc);
    var r, t := TransformOps(a, b), TransformOps(Blind(a), Blind(b));
    NothingYet();
    HeadingStart(a, b);
    HeadingStart(Blind(a), Blind(b));
    ShadowTransform(a, b, [], [], [], [], r, t);
    TransformDiamond(Blind(a), Blind(b), BlindDoc(doc));
    ShadowResult(t.0, r.0, ApplyOps(b, doc));
    ShadowResult(t.1, r.1, ApplyOps(a, doc));
  }

  /** Whatever ids the inserts carry, both ways round give the same text and the same tracking. */
  lemma TextAndTrackingAgree(a: seq<ScanOp>, b: seq<ScanOp>, doc: Doc)
    requires Proper(a) && Proper(b) && Base(Atoms(a)) == Base(Atoms(b)) == |doc|
    ensures var r := TransformOps(a, b);
      && Canonical(r.0) && Canonical(r.1)
      && Base(Atoms(r.0)) == Target(Atoms(b)) && Base(Atoms(r.1)) == Target(Atoms(a))
      && BlindDoc(ApplyOps(r.1, ApplyOps(a, doc))) == BlindDoc(ApplyOps(r.0, ApplyOps(b, doc)))
  {
    hide TransformFrom, Canonical, Proper, DistinctIds, Blind, BlindDoc, ApplyAtoms, Atoms;
    NothingYet();
    HeadingStart(a, b);
    TransformCanonical(a, b, [], [], TransformOps(a, b));
    TransformShadowed(a, b, doc);
    TransformDiamond(Blind(a), Blind(b), BlindDoc(doc));
  }

  // ----- compose -----

  lemma {:induction false} ShadowCompose(s1: seq<ScanOp>, s2: seq<ScanOp>, p: seq<ScanOp>, q: seq<ScanOp>)
    requires Proper(s1) && Proper(s2) && Target(Atoms(s1)) == Base(Atoms(s2))
    requires Proper(Blind(s1)) && Proper(Blind(s2)) && Target(Atoms(Blind(s1))) == Base(Atoms(Blind(s2)))
    requires Shadows(q, p)
    ensures Shadows(ComposeFrom(Blind(s1), Blind(s2), q), ComposeFrom(s1, s2, p))
    decreases Extent(s1) + Extent(s2)
  {
    if s1 == [] && s2 == [] {
    } else if s1 != [] && s1[0].Remove? {
      BlindRest(s1, 0);
      hide ComposeFrom, Shadows, Proper, Extent, Base, Target, Atoms;
      ComposeRemoves(s1, s2, p);
      ComposeRemoves(Blind(s1), Blind(s2), q);
      ShadowPush(q, p, s1[0]);
      ShadowCompose(s1[1..], s2, Push(p, s1[0]), Push(q, BlindOp(s1[0])));
    } else if s2 != [] && s2[0].Insert? {
      BlindRest(s2, 0);
      hide ComposeFrom, Shadows, Proper, Extent, Base, Target, Atoms;
      ComposeInserts(s1, s2, p);
      ComposeInserts(Blind(s1), Blind(s2), q);
      ShadowPush(q, p, s2[0]);
      ShadowCompose(s1, s2[1..], Push(p, s2[0]), Push(q, BlindOp(s2[0])));
    } else {
      ShadowMeet(s1, s2, p, q);
    }
  }

  lemma {:induction false} ShadowMeet(s1: seq<ScanOp>, s2: seq<ScanOp>, p: seq<ScanOp>, q: seq<ScanOp>)
    requires Proper(s1) && Proper(s2) && Target(Atoms(s1)) == Base(Atoms(s2))
    requires Proper(Blind(s1)) && Proper(Blind(s2)) && Target(Atoms(Blind(s1))) == Base(Atoms(Blind(s2)))
    requires Shadows(q, p)
    requires (s1 != [] || s2 != []) && (s1 == [] || !s1[0].Remove?) && (s2 == [] || !s2[0].Insert?)
    ensures Shadows(ComposeFrom(Blind(s1), Blind(s2), q), ComposeFrom(s1, s2, p))
    decreases Extent(s1) + Extent(s2), 0
  {
    BothLeft(s1, s2);
    hide ComposeFrom, Shadows, Proper, Extent, Base, Target, Atoms, Advance, PushInsert;
    var n := Min(Width(s1[0]), Width(s2[0]));
    BlindRest(s1, n);
    BlindRest(s2, n);
    ComposeMeets(s1, s2, p);
    ComposeMeets(Blind(s1), Blind(s2), q);
    var met := Meet(s1[0], s2[0], n);
    assert Meet(Blind(s1)[0], Blind(s2)[0], n) == if met.Some? then Some(BlindOp(met.value)) else None;
    if met.Some? { ShadowPush(q, p, met.value); }
    ShadowCompose(Advance(s1, n), Advance(s2, n), PushOption(p, met),
      PushOption(q, Meet(Blind(s1)[0], Blind(s2)[0], n)));
  }

  /** Whatever ids the inserts carry, the composed operation gives the same text and the same tracking. */
  lemma ComposedTextAndTracking(a: seq<ScanOp>, b: seq<ScanOp>, doc: Doc)
    requires Proper(a) && Proper(b) && Base(Atoms(a)) == |doc| && Target(Atoms(a)) == Base(Atoms(b))
    ensures var c := ComposeOps(a, b);
      && Canonical(c) && Base(Atoms(c)) == |doc|
      && BlindDoc(ApplyOps(c, doc)) == BlindDoc(ApplyOps(b, ApplyOps(a, doc)))
  {
    hide ComposeFrom, Shadows, SameEffect, Canonical, Proper, DistinctIds, Blind, BlindDoc, ApplyAtoms, Atoms;
    BlindFacts(a, doc);
    BlindFacts(b, ApplyOps(a, doc));
    NothingYet();
    ComposeCanonical(a, b, []);
    ShadowCompose(a, b, [], []);
    ComposeApplies(Blind(a), Blind(b), BlindDoc(doc));
    ShadowResult(ComposeOps(Blind(a), Blind(b)), ComposeOps(a, b), doc);
  }

  // ----- comment marks: exactly the lists without repetitions are safe -----

  /** All inserts carry this list, or one that repeats nothing. */
  predicate Uses(ops: seq<ScanOp>, ids: CommentIds) {
    forall k :: 0 <= k < |ops| ==> ops[k].Insert? ==> ops[k].ids == ids || NoRepeat(ops[k].ids)
  }

  ghost predicate BothWaysAgree(a: seq<ScanOp>, b: seq<ScanOp>, doc: Doc) {
    Proper(a) && Proper(b) && Base(Atoms(a)) == Base(Atoms(b)) == |doc| ==>
      var r := TransformOps(a, b);
      && Base(Atoms(r.0)) == Target(Atoms(b)) && Base(Atoms(r.1)) == Target(Atoms(a))
      && ApplyOps(r.1, ApplyOps(a, doc)) == ApplyOps(r.0, ApplyOps(b, doc))
  }

  ghost predicate SafeToTransform(ids: CommentIds) {
    forall a, b, doc :: Uses(a, ids) && Uses(b, ids) ==> BothWaysAgree(a, b, doc)
  }

  ghost predicate ComposesRight(a: seq<ScanOp>, b: seq<ScanOp>, doc: Doc) {
    Proper(a) && Proper(b) && Base(Atoms(a)) == |doc| && Target(Atoms(a)) == Base(Atoms(b)) ==>
      var c := ComposeOps(a, b);
      Base(Atoms(c)) == |doc| && ApplyOps(c, doc) == ApplyOps(b, ApplyOps(a, doc))
  }

  ghost predicate SafeToCompose(ids: CommentIds) {
    forall a, b, doc :: Uses(a, ids) && Uses(b, ids) ==> ComposesRight(a, b, doc)
  }

  /** An insert on either side of one character: removing that character brings them together. */
  function TwoInserts(x: string, y: string, p: Option<TrackingProps>, ids: CommentIds, jds: CommentIds): seq<ScanOp> {
    [Insert(x, p, ids), Retain(1, Leave), Insert(y, p, jds)]
  }

  lemma AtomsOfOne(op: ScanOp)
    ensures Atoms([op]) == Expand(op) && Base(Atoms([op])) == Span(op)
    ensures Target(Atoms([op])) == if op.Remove? then 0 else Width(op)
  {
    AtomsSingle(op);
    CountsExpand(op);
  }

  /** Applying one more operation of a list, at the end of a document. */
  lemma OneMoreApplied(ops: seq<ScanOp>, op: ScanOp, doc: Doc, covered: Doc)
    requires Base(Atoms(ops)) == |doc| && |covered| == Span(op)
    ensures Base(Atoms(ops + [op])) == |doc + covered|
    ensures ApplyOps(ops + [op], doc + covered) == ApplyOps(ops, doc) + Piece(op, covered)
  {
    ApplySnoc(ops, op, doc + covered, |doc|);
    assert (doc + covered)[..|doc|] == doc && (doc + covered)[|doc|..] == covered;
  }

  lemma InsertApplied(x: string, p: Option<TrackingProps>, ids: CommentIds)
    ensures var a := [Insert(x, p, ids)];
      Base(Atoms(a)) == 0 && ApplyOps(a, []) == Typed(x, p, ids) && Target(Atoms(a)) == |x|
  {
    var none: seq<ScanOp>, empty: Doc := [], [];
    AtomsOfOne(Insert(x, p, ids));
    OneMoreApplied(none, Insert(x, p, ids), empty, empty);
    assert none + [Insert(x, p, ids)] == [Insert(x, p, ids)] && empty + empty == empty && ApplyOps(none, empty) == empty;
    assert empty + Typed(x, p, ids) == Typed(x, p, ids);
  }

  lemma AppendApplied(doc: Doc, y: string, p: Option<TrackingProps>, jds: CommentIds)
    ensures var b := [Retain(|doc|, Leave), Insert(y, p, jds)];
      Base(Atoms(b)) == |doc| && ApplyOps(b, doc) == doc + Typed(y, p, jds)
  {
    var none: seq<ScanOp>, empty: Doc := [], [];
    var k, j := Retain(|doc|, Leave), Insert(y, p, jds);
    OneMoreApplied(none, k, empty, doc);
    OneMoreApplied([k], j, empty + doc, empty);
    assert none + [k] == [k] && [k] + [j] == [k, j] && Piece(k, doc) == doc;
    assert empty + doc == doc && doc + empty == doc && ApplyOps(none, empty) == empty;
  }

  lemma TwoInsertsApplied(x: string, y: string, p: Option<TrackingProps>, ids: CommentIds, jds: CommentIds, ch: DocChar)
    ensures var a := TwoInserts(x, y, p, ids, jds);
      Base(Atoms(a)) == 1 && ApplyOps(a, [ch]) == Typed(x, p, ids) + [ch] + Typed(y, p, jds)
  {
    var none: seq<ScanOp>, empty: Doc := [], [];
    var i, k, j := Insert(x, p, ids), Retain(1, Leave), Insert(y, p, jds);
    OneMoreApplied(none, i, empty, empty);
    OneMoreApplied([i], k, empty, [ch]);
    OneMoreApplied([i, k], j, [ch], empty);
    assert none + [i] == [i] && [i] + [k] == [i, k] && [i, k] + [j] == TwoInserts(x, y, p, ids, jds);
    assert empty + empty == empty && empty + [ch] == [ch] && [ch] + empty == [ch];
    assert Piece(k, [ch]) == [ch];
    assert ApplyOps(none, empty) == empty;
  }

  lemma ThreeApplied(left: Doc, ch: DocChar, right: Doc)
    ensures var q := [Retain(|left|, Leave), Remove(1), Retain(|right|, Leave)];
      Base(Atoms(q)) == |left + [ch] + right| && ApplyOps(q, left + [ch] + right) == left + right
  {
    var none: seq<ScanOp>, empty: Doc := [], [];
    var i, k, j := Retain(|left|, Leave), Remove(1), Retain(|right|, Leave);
    OneMoreApplied(none, i, empty, left);
    OneMoreApplied([i], k, empty + left, [ch]);
    OneMoreApplied([i, k], j, empty + left + [ch], right);
    assert none + [i] == [i] && [i] + [k] == [i, k] && [i, k] + [j] == [i, k, j];
    assert Piece(i, left) == left && Piece(j, right) == right && ApplyOps(none, empty) == empty;
    assert empty + left + [ch] + right == left + [ch] + right;
  }

  /** What the builder makes of the calls it gets: the second insert ends up in the first. */
  lemma BuilderCalls(x: string, y: string, p: Option<TrackingProps>, ids: CommentIds, jds: CommentIds)
    requires x != "" && y != "" && SameIds(ids, jds)
    ensures var i, q := Insert(x, p, ids), [Retain(|x|, Leave), Remove(1)];
      && Push([], i) == [i] && Push([i], Insert(y, p, jds)) == [Insert(x + y, p, ids)]
      && PushRetain([], |x|, Leave) == [Retain(|x|, Leave)]
      && PushOption([Retain(|x|, Leave)], Some(Remove(1))) == q && PushOption([i], None) == [i]
      && PushRetain(q, |y|, Leave) == [Retain(|x|, Leave), Remove(1), Retain(|y|, Leave)]
  {
    var none: seq<ScanOp> := [];
    var i, k, j, r := Insert(x, p, ids), Retain(|x|, Leave), Insert(y, p, jds), Remove(1);
    PushFirst(none, i);
    PushFirst(none, k);
    assert PushInsert([i], y, p, jds) == PushMerging([i], j) == [Insert(x + y, p, ids)];
    PushApart([k], r);
    PushApart([k, r], Retain(|y|, Leave));
    assert [k] + [r] == [k, r];
    hide PushMerging, CanMerge, SameIds;
  }

  lemma PushFirst(none: seq<ScanOp>, op: ScanOp)
    requires none == [] && !IsZero(op)
    ensures Push(none, op) == [op]
  {
  }

  /** An operation of another kind than the last one is appended. */
  lemma PushApart(ops: seq<ScanOp>, op: ScanOp)
    requires ops != [] && !IsZero(op) && !op.Insert? && (op.Retain? ==> !Last(ops).Retain?) && (op.Remove? ==> !Last(ops).Remove?)
    ensures Push(ops, op) == ops + [op]
  {
  }

  /** Past the removal, the two inserts are merged, with the ids of the first. */
  lemma TwoInsertsTransformed(x: string, y: string, p: Option<TrackingProps>, ids: CommentIds, jds: CommentIds)
    requires x != "" && y != "" && SameIds(ids, jds)
    ensures var a, b := TwoInserts(x, y, p, ids, jds), [Remove(1)];
      && Proper(a) && Proper(b) && Base(Atoms(a)) == Base(Atoms(b)) == 1
      && TransformOps(a, b) == ([Insert(x + y, p, ids)], [Retain(|x|, Leave), Remove(1), Retain(|y|, Leave)])
  {
    var none: seq<ScanOp> := [];
    var i, k, j := Insert(x, p, ids), Retain(1, Leave), Insert(y, p, jds);
    var a, b := TwoInserts(x, y, p, ids, jds), [Remove(1)];
    TwoInsertsApplied(x, y, p, ids, jds, DocChar(' ', None, {}));
    AtomsOfOne(Remove(1));
    var q, goal := [Retain(|x|, Leave), Remove(1)], TransformOps(a, b);
    assert a[1..] == [k, j] && [j][1..] == none && Advance([k, j], 1) == [j] && Advance(b, 1) == none;
    BuilderCalls(x, y, p, ids, jds);
    HeadingStart(a, b);
    hide Heading, TransformFrom, Atoms, Proper, Size, Push, PushRetain, PushMerging, PushInsert, CanMerge, SameIds;
    HeadingInsertLeft(a, b, none, none, goal);
    HeadingBase([k, j], b, [i], [Retain(|x|, Leave)], goal);
    HeadingInsertLeft([j], none, [i], q, goal);
    HeadingEnd([Insert(x + y, p, ids)], [Retain(|x|, Leave), Remove(1), Retain(|y|, Leave)], goal);
  }

  /** With two lists the builder confuses, whatever the texts, the tracking and the character between them. */
  lemma ConfusedListsDiverge(x: string, y: string, p: Option<TrackingProps>, ids: CommentIds, jds: CommentIds, ch: DocChar)
    requires x != "" && y != "" && Confused(ids, jds)
    ensures !BothWaysAgree(TwoInserts(x, y, p, ids, jds), [Remove(1)], [ch])
  {
    var a, b := TwoInserts(x, y, p, ids, jds), [Remove(1)];
    TwoInsertsTransformed(x, y, p, ids, jds);
    TwoInsertsApplied(x, y, p, ids, jds, ch);
    var left, right := Typed(x, p, ids), Typed(y, p, jds);
    ThreeApplied(left, ch, right);
    AtomsOfOne(Remove(1));
    InsertApplied(x + y, p, ids);
    var gone: Doc := ApplyOps(b, [ch]);
    assert ApplyOps([Insert(x + y, p, ids)], gone) == Typed(x + y, p, ids);
    assert Last(left + right).comments == IdSet(jds) && Last(Typed(x + y, p, ids)).comments == IdSet(ids);
  }

  /** Transforming is right for all operations that use a list of ids, besides lists without repetitions, iff it repeats none. */
  lemma SafeToTransformExactlyWhen(ids: CommentIds)
    ensures SafeToTransform(ids) <==> NoRepeat(ids)
  {
    if NoRepeat(ids) {
      forall a, b, doc | Uses(a, ids) && Uses(b, ids) ensures BothWaysAgree(a, b, doc) {
        if Proper(a) && Proper(b) && Base(Atoms(a)) == Base(Atoms(b)) == |doc| {
          TransformDiamond(a, b, doc);
        }
      }
    } else {
      var jds := RepetitionsAreConfused(ids);
      ConfusedListsDiverge("x", "y", None, ids, jds, DocChar('z', None, {}));
      assert Uses(TwoInserts("x", "y", None, ids, jds), ids) && Uses([Remove(1)], ids);
    }
  }

  /** The same for composing: the second insert is merged into the first, with its ids. */
  lemma ConfusedListsCompose(x: string, y: string, p: Option<TrackingProps>, ids: CommentIds, jds: CommentIds)
    requires x != "" && y != "" && Confused(ids, jds)
    ensures !ComposesRight([Insert(x, p, ids)], [Retain(|x|, Leave), Insert(y, p, jds)], [])
  {
    InsertApplied(x, p, ids);
    AppendApplied(Typed(x, p, ids), y, p, jds);
    InsertApplied(x + y, p, ids);
    ComposedInserts(x, y, p, ids, jds);
    assert Last(Typed(x, p, ids) + Typed(y, p, jds)).comments == IdSet(jds);
    assert Last(Typed(x + y, p, ids)).comments == IdSet(ids);
  }

  /** The first insert, and a retain of its length with the second insert after it. */
  lemma InsertThenAppend(x: string, y: string, p: Option<TrackingProps>, ids: CommentIds, jds: CommentIds)
    requires x != "" && y != ""
    ensures var i, k, j := Insert(x, p, ids), Retain(|x|, Leave), Insert(y, p, jds);
      && Proper([i]) && Proper([k, j]) && Proper([j]) && Target(Atoms([i])) == |x| == Base(Atoms([k, j]))
      && Atoms([]) == [] && Target(Atoms([])) == 0 == Base(Atoms([j]))
  {
    var i, k, j := Insert(x, p, ids), Retain(|x|, Leave), Insert(y, p, jds);
    AtomsOfOne(i);
    AtomsOfOne(j);
    HeadCounts([k, j]);
    assert [k, j][1..] == [j];
  }

  lemma OneStepPast(x: string, y: string, p: Option<TrackingProps>, ids: CommentIds, jds: CommentIds)
    requires x != "" && y != ""
    ensures var none: seq<ScanOp> := [];
      var i, k, j := Insert(x, p, ids), Retain(|x|, Leave), Insert(y, p, jds);
      && Width(i) == Width(k) == |x| && Advance([i], |x|) == none && Advance([k, j], |x|) == [j] && [j][1..] == none
      && PushOption(none, Meet(i, k, |x|)) == [i]
  {
    var none: seq<ScanOp> := [];
    var i, k, j := Insert(x, p, ids), Retain(|x|, Leave), Insert(y, p, jds);
    assert [i][1..] == none && [k, j][1..] == [j];
    assert Meet(i, k, |x|) == Some(i) by { assert x[..|x|] == x; }
    assert Push(none, i) == [i];
  }

  lemma ComposedInserts(x: string, y: string, p: Option<TrackingProps>, ids: CommentIds, jds: CommentIds)
    requires x != "" && y != "" && SameIds(ids, jds)
    ensures var a, b := [Insert(x, p, ids)], [Retain(|x|, Leave), Insert(y, p, jds)];
      && Proper(a) && Proper(b) && Target(Atoms(a)) == Base(Atoms(b))
      && ComposeOps(a, b) == [Insert(x + y, p, ids)]
  {
    var none: seq<ScanOp> := [];
    var a, b, j := [Insert(x, p, ids)], [Retain(|x|, Leave), Insert(y, p, jds)], Insert(y, p, jds);
    InsertThenAppend(x, y, p, ids, jds);
    assert ComposeOps(a, b) == ComposeFrom(a, b, none);
    hide *;
    OneStepPast(x, y, p, ids, jds);
    BuilderCalls(x, y, p, ids, jds);
    ComposeEnd([Insert(x + y, p, ids)]);
    ComposeMeets(a, b, none);
    ComposeInserts(none, [j], a);
  }

  lemma ComposeEnd(p: seq<ScanOp>)
    ensures Atoms([]) == [] && ComposeFrom([], [], p) == p
  {
  }

  lemma SafeToComposeExactlyWhen(ids: CommentIds)
    ensures SafeToCompose(ids) <==> NoRepeat(ids)
  {
    if NoRepeat(ids) {
      forall a, b, doc | Uses(a, ids) && Uses(b, ids) ensures ComposesRight(a, b, doc) {
        if Proper(a) && Proper(b) && Base(Atoms(a)) == |doc| && Target(Atoms(a)) == Base(Atoms(b)) {
          ComposeApplies(a, b, doc);
        }
      }
    } else {
      var jds := RepetitionsAreConfused(ids);
      ConfusedListsCompose("x", "y", None, ids, jds);
      assert Uses([Insert("x", None, ids)], ids) && Uses([Retain(1, Leave), Insert("y", None, jds)], ids);
    }
  }
}
