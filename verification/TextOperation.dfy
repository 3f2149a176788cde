/**
  The text operation builder and `apply` (overleaf-editor-core: text_operation.js
  lines 40-346, canMergeWith of scan_op.js).
*/
module TextOperations {
  import opened Common
  import opened TextModel

  const MAX_STRING_LENGTH: nat := 3 * 1024 * 1024

  datatype ApplyFailure = LengthMismatch | TooLong

  // ----- the builder, on values -----

  /** Equally long, and every id of the first is among those of the second. */
  predicate SameIds(ids: CommentIds, jds: CommentIds) {
    if ids.Some? then jds.Some? && |ids.value| == |jds.value| && forall id :: id in ids.value ==> id in jds.value
    else jds.None?
  }

  predicate CanMerge(a: ScanOp, b: ScanOp) {
    match (a, b)
    case (Retain(_, d), Retain(_, e)) => d == e
    case (Insert(_, p, ids), Insert(_, q, jds)) => p == q && SameIds(ids, jds)
    case (Remove(_), Remove(_)) => true
    case _ => false
  }

  function Merge(a: ScanOp, b: ScanOp): ScanOp
    requires CanMerge(a, b)
  {
    match a
    case Retain(n, d) => Retain(n + b.len, d)
    case Insert(s, p, ids) => Insert(s + b.text, p, ids)
    case Remove(n) => Remove(n + b.len)
  }

  predicate IsZero(op: ScanOp) {
    if op.Insert? then op.text == "" else op.len == 0
  }

  function PushMerging(ops: seq<ScanOp>, op: ScanOp): seq<ScanOp> {
    if ops != [] && CanMerge(Last(ops), op) then Front(ops) + [Merge(Last(ops), op)] else ops + [op]
  }

  function PushRetain(ops: seq<ScanOp>, n: nat, d: Directive): seq<ScanOp> {
    if n == 0 then ops else PushMerging(ops, Retain(n, d))
  }

  function PushRemove(ops: seq<ScanOp>, n: nat): seq<ScanOp> {
    if n == 0 then ops else PushMerging(ops, Remove(n))
  }

  /** An insert that follows a remove is moved in front of it. */
  function PushInsert(ops: seq<ScanOp>, text: string, props: Option<TrackingProps>, ids: CommentIds): seq<ScanOp> {
    var op := Insert(text, props, ids);
    if text == "" then ops
    else if ops != [] && Last(ops).Remove? then PushMerging(Front(ops), op) + [Last(ops)]
    else PushMerging(ops, op)
  }

  function Push(ops: seq<ScanOp>, op: ScanOp): seq<ScanOp> {
    match op
    case Retain(n, d) => PushRetain(ops, n, d)
    case Insert(text, props, ids) => PushInsert(ops, text, props, ids)
    case Remove(n) => PushRemove(ops, n)
  }

  /** No zero-length operation: what every builder call keeps. */
  predicate Proper(ops: seq<ScanOp>) {
    forall i :: 0 <= i < |ops| ==> !IsZero(ops[i])
  }

  /** Neighbours are never mergeable and an insert never follows a remove. */
  predicate Canonical(ops: seq<ScanOp>) {
    && Proper(ops)
    && (forall i :: 0 <= i < |ops| - 1 ==> !CanMerge(ops[i], ops[i + 1]))
    && (forall i :: 0 <= i < |ops| - 1 ==> !(ops[i].Remove? && ops[i + 1].Insert?))
  }

  lemma AtomsSnoc(ops: seq<ScanOp>, op: ScanOp)
    ensures Atoms(ops + [op]) == Atoms(ops) + Expand(op)
  {
    AtomsConcat(ops, [op]);
    AtomsSingle(op);
  }

  // ----- lists of comment ids -----

  predicate NoRepeat(ids: CommentIds) {
    ids.Some? ==> forall i, j :: 0 <= i < j < |ids.value| ==> ids.value[i] != ids.value[j]
  }

  /** No insert repeats a comment id. */
  predicate DistinctIds(ops: seq<ScanOp>) {
    forall i :: 0 <= i < |ops| ==> ops[i].Insert? ==> NoRepeat(ops[i].ids)
  }

  lemma NoRepeatSnoc(s: seq<string>, x: string)
    ensures NoRepeat(Some(s + [x])) <==> NoRepeat(Some(s)) && x !in s
  {
    var t := s + [x];
    if NoRepeat(Some(t)) {
      assert forall i :: 0 <= i < |s| ==> t[i] == s[i] && t[i] != t[|s|];
    }
  }

  lemma {:induction false} SetOfList(s: seq<string>)
    ensures |IdSet(Some(s))| <= |s|
    ensures NoRepeat(Some(s)) ==> |IdSet(Some(s))| == |s|
  {
    if s != [] {
      var front, last := Front(s), Last(s);
      SetOfList(front);
      assert s == front + [last];
      assert IdSet(Some(s)) == IdSet(Some(front)) + {last};
    }
  }

  /** Without repetitions in the first list, the comparison decides whether both name the same comments. */
  lemma SameIdsSameSet(ids: CommentIds, jds: CommentIds)
    requires SameIds(ids, jds) && NoRepeat(ids)
    ensures IdSet(ids) == IdSet(jds)
  {
    if ids.Some? {
      SetOfList(ids.value);
      SetOfList(jds.value);
      SubsetOfSameSize(IdSet(ids), IdSet(jds));
    }
  }

  lemma SubsetOfSameSize(a: set<string>, b: set<string>)
    requires a <= b && |b| <= |a|
    ensures a == b
  {
    assert |b - a| == |b| - |a|;
  }

  // ----- what merging does to the effect -----

  lemma MergeExpands(a: ScanOp, b: ScanOp)
    requires CanMerge(a, b) && (a.Insert? ==> IdSet(a.ids) == IdSet(b.ids))
    ensures Expand(Merge(a, b)) == Expand(a) + Expand(b)
  {
  }

  lemma PushMergingAtoms(ops: seq<ScanOp>, op: ScanOp)
    requires ops != [] && CanMerge(Last(ops), op) && op.Insert? ==> IdSet(Last(ops).ids) == IdSet(op.ids)
    ensures Atoms(PushMerging(ops, op)) == Atoms(ops) + Expand(op)
  {
    if ops != [] && CanMerge(Last(ops), op) {
      var front, last := Front(ops), Last(ops);
      assert ops == front + [last];
      AtomsSnoc(front, last);
      AtomsSnoc(front, Merge(last, op));
      MergeExpands(last, op);
    } else {
      AtomsSnoc(ops, op);
    }
  }

  /** The operations an insert comes after. */
  function BeforeInsert(ops: seq<ScanOp>): seq<ScanOp> {
    if ops != [] && Last(ops).Remove? then Front(ops) else ops
  }

  /** The builder merges this insert into one that names other comments. */
  predicate Loses(ops: seq<ScanOp>, op: ScanOp) {
    var front := BeforeInsert(ops);
    op.Insert? && op.text != "" && front != [] && CanMerge(Last(front), op) && IdSet(Last(front).ids) != IdSet(op.ids)
  }

  /** Merging and reordering in the builder do not change what the operation does. */
  lemma PushEffect(ops: seq<ScanOp>, op: ScanOp)
    requires !Loses(ops, op)
    ensures SameEffect(Atoms(Push(ops, op)), Atoms(ops) + Expand(op))
  {
    if IsZero(op) {
      assert Expand(op) == [];
      assert Atoms(ops) + [] == Atoms(ops);
    } else if op.Insert? && ops != [] && Last(ops).Remove? {
      var front, last := Front(ops), Last(ops);
      var text := Typed(op.text, op.props, op.ids);
      assert ops == front + [last];
      AtomsSnoc(front, last);
      PushMergingAtoms(front, op);
      AtomsSnoc(PushMerging(front, op), last);
      InsertRemoveCommute(Atoms(front), text, last.len);
    } else {
      PushMergingAtoms(ops, op);
    }
  }

  lemma RenderSnocAdds(x: seq<Atom>, text: Doc)
    requires text != []
    ensures Render(x + Adds(text), 0) != [] && Last(Render(x + Adds(text), 0)) == New(Last(text))
  {
    RenderConcat(x, Adds(text), 0);
    RenderAdds(text, Base(x));
  }

  lemma RenderSnocDrops(x: seq<Atom>, n: nat)
    ensures Render(x + Repeat(Drop, n), 0) == Render(x, 0)
  {
    RenderConcat(x, Repeat(Drop, n), 0);
    RenderDrops(n, Base(x));
  }

  /** The last character typed carries the ids of the insert it was merged into, not its own. */
  lemma MergeLoses(front: seq<ScanOp>, op: ScanOp)
    requires front != [] && CanMerge(Last(front), op) && op.Insert? && op.text != ""
    ensures var x, y := Render(Atoms(PushMerging(front, op)), 0), Render(Atoms(front) + Expand(op), 0);
      && x != [] && Last(x).New? && Last(x).ch.comments == IdSet(Last(front).ids)
      && y != [] && Last(y).New? && Last(y).ch.comments == IdSet(op.ids)
  {
    var merged := Merge(Last(front), op);
    AtomsSnoc(Front(front), merged);
    RenderSnocAdds(Atoms(Front(front)), Typed(merged.text, merged.props, merged.ids));
    RenderSnocAdds(Atoms(front), Typed(op.text, op.props, op.ids));
  }

  lemma LosingChanges(ops: seq<ScanOp>, op: ScanOp)
    requires Loses(ops, op)
    ensures !SameEffect(Atoms(Push(ops, op)), Atoms(ops) + Expand(op))
  {
    var front := BeforeInsert(ops);
    InsertPlace(ops, op);
    hide Push, PushMerging, PushInsert, CanMerge, Atoms;
    MergeLoses(front, op);
    if ops != front {
      var last := Last(ops);
      LosingBeforeRemove(front, op, last.len);
      AtomsSnoc(front, last);
      AtomsSnoc(PushMerging(front, op), last);
    }
  }

  lemma InsertPlace(ops: seq<ScanOp>, op: ScanOp)
    requires op.Insert? && op.text != "" && ops != []
    ensures var front := BeforeInsert(ops);
      if Last(ops).Remove? then ops == front + [Last(ops)] && Push(ops, op) == PushMerging(front, op) + [Last(ops)]
      else ops == front && Push(ops, op) == PushMerging(ops, op)
  {
  }

  lemma LosingBeforeRemove(front: seq<ScanOp>, op: ScanOp, n: nat)
    requires op.Insert? && op.text != ""
    requires Render(Atoms(PushMerging(front, op)), 0) != [] && Last(Render(Atoms(PushMerging(front, op)), 0)).New?
    requires Last(Render(Atoms(PushMerging(front, op)), 0)).ch.comments != IdSet(op.ids)
    ensures !SameEffect(Atoms(PushMerging(front, op)) + Expand(Remove(n)), Atoms(front) + Expand(Remove(n)) + Expand(op))
  {
    hide PushMerging, Atoms;
    RenderSnocDrops(Atoms(PushMerging(front, op)), n);
    RenderSnocAdds(Atoms(front) + Expand(Remove(n)), Typed(op.text, op.props, op.ids));
  }

  /** Every builder call keeps the effect, but for the inserts that lose their comment ids. */
  lemma PushEffectExactly(ops: seq<ScanOp>, op: ScanOp)
    ensures SameEffect(Atoms(Push(ops, op)), Atoms(ops) + Expand(op)) <==> !Loses(ops, op)
  {
    hide *;
    if Loses(ops, op) { LosingChanges(ops, op); } else { PushEffect(ops, op); }
  }

  /** Operations that repeat no id stay so, and lose nothing. */
  lemma PushDistinct(ops: seq<ScanOp>, op: ScanOp)
    requires DistinctIds(ops)
    ensures !Loses(ops, op)
    ensures (op.Insert? ==> NoRepeat(op.ids)) ==> DistinctIds(Push(ops, op))
  {
    var front := BeforeInsert(ops);
    if op.Insert? && front != [] && CanMerge(Last(front), op) {
      assert front[|front| - 1] == ops[|front| - 1];
      SameIdsSameSet(Last(front).ids, op.ids);
    }
  }

  lemma PushMergingCounts(ops: seq<ScanOp>, op: ScanOp)
    ensures Base(Atoms(PushMerging(ops, op))) == Base(Atoms(ops)) + (if op.Insert? then 0 else op.len)
    ensures Target(Atoms(PushMerging(ops, op)))
         == Target(Atoms(ops)) + (if op.Insert? then |op.text| else if op.Retain? then op.len else 0)
  {
    if ops != [] && CanMerge(Last(ops), op) {
      var front, last := Front(ops), Last(ops);
      assert ops == front + [last];
      SnocCounts(front, last);
      SnocCounts(front, Merge(last, op));
    } else {
      SnocCounts(ops, op);
    }
  }

  lemma SnocCounts(ops: seq<ScanOp>, op: ScanOp)
    ensures Base(Atoms(ops + [op])) == Base(Atoms(ops)) + (if op.Insert? then 0 else op.len)
    ensures Target(Atoms(ops + [op]))
         == Target(Atoms(ops)) + (if op.Insert? then |op.text| else if op.Retain? then op.len else 0)
  {
    AtomsSnoc(ops, op);
    CountsConcat(Atoms(ops), Expand(op));
    CountsExpand(op);
  }

  /** The lengths advance as they should, whatever happens to the ids. */
  lemma PushCounts(ops: seq<ScanOp>, op: ScanOp)
    ensures Base(Atoms(Push(ops, op))) == Base(Atoms(ops)) + (if op.Insert? then 0 else op.len)
    ensures Target(Atoms(Push(ops, op)))
         == Target(Atoms(ops)) + (if op.Insert? then |op.text| else if op.Retain? then op.len else 0)
  {
    if IsZero(op) {
    } else if op.Insert? && ops != [] && Last(ops).Remove? {
      var front, last := Front(ops), Last(ops);
      assert ops == front + [last];
      SnocCounts(front, last);
      PushMergingCounts(front, op);
      SnocCounts(PushMerging(front, op), last);
    } else {
      PushMergingCounts(ops, op);
    }
  }

  lemma PushMergingCanonical(ops: seq<ScanOp>, op: ScanOp)
    requires Canonical(ops) && !IsZero(op)
    requires !(ops != [] && Last(ops).Remove? && op.Insert?)
    ensures Canonical(PushMerging(ops, op))
  {
  }

  /** Every builder call keeps the operation in canonical form. */
  lemma PushCanonical(ops: seq<ScanOp>, op: ScanOp)
    requires Canonical(ops)
    ensures Canonical(Push(ops, op))
  {
    if IsZero(op) {
    } else if op.Insert? && ops != [] && Last(ops).Remove? {
      var front := Front(ops);
      assert Canonical(front);
      PushMergingCanonical(front, op);
    } else {
      PushMergingCanonical(ops, op);
    }
  }

  lemma PushFacts(ops: seq<ScanOp>, op: ScanOp)
    requires Canonical(ops)
    ensures Canonical(Push(ops, op))
    ensures SameEffect(Atoms(Push(ops, op)), Atoms(ops) + Expand(op)) <==> !Loses(ops, op)
    ensures Base(Atoms(Push(ops, op))) == Base(Atoms(ops)) + (if op.Insert? then 0 else op.len)
    ensures Target(Atoms(Push(ops, op)))
         == Target(Atoms(ops)) + (if op.Insert? then |op.text| else if op.Retain? then op.len else 0)
  {
    PushEffectExactly(ops, op);
    PushCounts(ops, op);
    PushCanonical(ops, op);
  }

  // ----- applying a list of operations -----

  function ApplyOps(ops: seq<ScanOp>, doc: Doc): Doc
    requires Base(Atoms(ops)) == |doc|
  {
    ApplyAtoms(Atoms(ops), doc)
  }

  lemma {:induction false} KeepRun(n: nat, d: Directive, doc: Doc)
    requires |doc| == n
    ensures Base(Repeat(Keep(d), n)) == n
    ensures ApplyAtoms(Repeat(Keep(d), n), doc) == seq(n, i requires 0 <= i < n => Mark(doc[i], d))
  {
    CountsRepeat(Keep(d), n);
    if n != 0 {
      assert Repeat(Keep(d), n)[1..] == Repeat(Keep(d), n - 1);
      KeepRun(n - 1, d, doc[1..]);
    }
  }

  lemma {:induction false} AddRun(text: Doc)
    ensures Base(Adds(text)) == 0
    ensures ApplyAtoms(Adds(text), []) == text
  {
    CountsAdds(text);
    if text != [] {
      assert Adds(text)[1..] == Adds(text[1..]);
      AddRun(text[1..]);
    }
  }

  lemma DropRun(n: nat, doc: Doc)
    requires |doc| == n
    ensures Base(Repeat(Drop, n)) == n
    ensures ApplyAtoms(Repeat(Drop, n), doc) == []
  {
    CountsRepeat(Drop, n);
  }

  /** What one operation makes of the characters it covers. */
  function Piece(op: ScanOp, covered: Doc): Doc {
    match op
    case Retain(_, d) => seq(|covered|, i requires 0 <= i < |covered| => Mark(covered[i], d))
    case Insert(text, props, ids) => Typed(text, props, ids)
    case Remove(_) => []
  }

  lemma ExpandApply(op: ScanOp, covered: Doc)
    requires |covered| == if op.Insert? then 0 else op.len
    ensures Base(Expand(op)) == |covered|
    ensures ApplyAtoms(Expand(op), covered) == Piece(op, covered)
  {
    CountsExpand(op);
    match op
    case Retain(n, d) => KeepRun(n, d, covered);
    case Insert(text, props, ids) => AddRun(Typed(text, props, ids));
    case Remove(n) => DropRun(n, covered);
  }

  /** What one more operation contributes, at the place the cursor has reached. */
  lemma ApplySnoc(ops: seq<ScanOp>, op: ScanOp, doc: Doc, k: nat)
    requires k == Base(Atoms(ops))
    requires |doc| == k + if op.Insert? then 0 else op.len
    ensures Base(Atoms(ops + [op])) == |doc|
    ensures ApplyOps(ops + [op], doc) == ApplyOps(ops, doc[..k]) + Piece(op, doc[k..])
  {
    AtomsSnoc(ops, op);
    ExpandApply(op, doc[k..]);
    ApplyConcat(Atoms(ops), Expand(op), doc);
  }

  lemma BaseSnoc(ops: seq<ScanOp>, op: ScanOp)
    ensures Base(Atoms(ops + [op])) == Base(Atoms(ops)) + if op.Insert? then 0 else op.len
  {
    AtomsSnoc(ops, op);
    CountsConcat(Atoms(ops), Expand(op));
    CountsExpand(op);
  }

  lemma BasePrefix(a: seq<ScanOp>, b: seq<ScanOp>)
    ensures Base(Atoms(a)) <= Base(Atoms(a + b))
  {
    AtomsConcat(a, b);
    CountsConcat(Atoms(a), Atoms(b));
  }

  function Span(op: ScanOp): nat {
    if op.Insert? then 0 else op.len
  }

  /** One step of the cursor through a document the whole list applies to. */
  lemma CursorStep(done: seq<ScanOp>, op: ScanOp, rest: seq<ScanOp>, doc: Doc, k: nat)
    requires k == Base(Atoms(done))
    requires Base(Atoms(done + [op] + rest)) == |doc|
    ensures k + Span(op) == Base(Atoms(done + [op])) <= |doc|
    ensures ApplyOps(done + [op], doc[..k + Span(op)])
         == ApplyOps(done, doc[..k]) + Piece(op, doc[k..k + Span(op)])
  {
    BaseSnoc(done, op);
    BasePrefix(done + [op], rest);
    var covered := doc[..k + Span(op)];
    ApplySnoc(done, op, covered, k);
    assert covered[..k] == doc[..k];
    assert covered[k..] == doc[k..k + Span(op)];
  }

  /** The document half-way through an operation: what is done, and what is still to come. */
  ghost function Halfway(ops: seq<ScanOp>, i: nat, doc: Doc): (r: (Doc, Doc))
    requires Base(Atoms(ops)) == |doc| && i <= |ops|
  {
    HalfwayFits(ops, i);
    var k := Base(Atoms(ops[..i]));
    (ApplyOps(ops[..i], doc[..k]), doc[k..])
  }

  lemma HalfwayFits(ops: seq<ScanOp>, i: nat)
    requires i <= |ops|
    ensures Base(Atoms(ops[..i])) <= Base(Atoms(ops))
  {
    assert ops == ops[..i] + ops[i..];
    BasePrefix(ops[..i], ops[i..]);
  }

  lemma HalfwayEnds(ops: seq<ScanOp>, doc: Doc)
    requires Base(Atoms(ops)) == |doc|
    ensures Halfway(ops, |ops|, doc) == (ApplyOps(ops, doc), [])
  {
    var whole := ops[..|ops|];
    assert whole == ops;
    assert doc[..|doc|] == doc && doc[|doc|..] == [];
  }

  lemma HalfwayStep(ops: seq<ScanOp>, i: nat, doc: Doc)
    requires Base(Atoms(ops)) == |doc| && i < |ops|
    ensures var h, g := Halfway(ops, i, doc), Halfway(ops, i + 1, doc);
      && Span(ops[i]) <= |h.1|
      && g.0 == h.0 + Piece(ops[i], h.1[..Span(ops[i])])
      && g.1 == h.1[Span(ops[i])..]
  {
    hide *;
    var k := Base(Atoms(ops[..i]));
    OneMoreOp(ops, i);
    HalfwayIs(ops, i, doc);
    HalfwayIs(ops, i + 1, doc);
    CursorStep(ops[..i], ops[i], ops[i + 1..], doc, k);
    SliceTwice(doc, k, Span(ops[i]));
  }

  lemma HalfwayIs(ops: seq<ScanOp>, i: nat, doc: Doc)
    requires Base(Atoms(ops)) == |doc| && i <= |ops|
    ensures var k := Base(Atoms(ops[..i]));
      k <= |doc| && Halfway(ops, i, doc) == (ApplyOps(ops[..i], doc[..k]), doc[k..])
  {
    HalfwayFits(ops, i);
  }

  lemma OneMoreOp(ops: seq<ScanOp>, i: nat)
    requires i < |ops|
    ensures ops == ops[..i] + [ops[i]] + ops[i + 1..] && ops[..i + 1] == ops[..i] + [ops[i]]
  {
  }

  lemma SliceTwice(doc: Doc, k: nat, n: nat)
    requires k + n <= |doc|
    ensures doc[k..][..n] == doc[k..k + n] && doc[k..][n..] == doc[k + n..]
  {
  }

  // ----- the mutable operation -----

  /** The branches of `insert`: merge, or slip in front of a trailing remove, or append. */
  method InsertInto(before: seq<ScanOp>, op: ScanOp) returns (ops: seq<ScanOp>)
    requires op.Insert? && op.text != ""
    ensures ops == Push(before, op)
  {
    ops := before;
    if ops != [] && CanMerge(Last(ops), op) {
      ops := ops[|ops| - 1 := Merge(Last(ops), op)];
    } else if ops != [] && Last(ops).Remove? {
      if |ops| >= 2 && CanMerge(ops[|ops| - 2], op) {
        ops := ops[|ops| - 2 := Merge(ops[|ops| - 2], op)];
      } else {
        var last := Last(ops);
        ops := ops + [last];
        ops := ops[|ops| - 2 := op];
      }
    } else {
      ops := ops + [op];
    }
  }

  class TextOperation {
    var ops: seq<ScanOp>
    var baseLength: nat
    var targetLength: nat

    ghost predicate Valid()
      reads this
    {
      && Canonical(ops)
      && baseLength == Base(Atoms(ops))
      && targetLength == Target(Atoms(ops))
    }

    constructor ()
      ensures Valid() && ops == []
    {
      ops, baseLength, targetLength := [], 0, 0;
    }

    method Retain(n: nat, d: Directive)
      requires Valid()
      modifies this
      ensures Valid() && ops == PushRetain(old(ops), n, d)
      ensures SameEffect(Atoms(ops), old(Atoms(ops)) + Repeat(Keep(d), n))
    {
      var op := ScanOp.Retain(n, d);
      PushFacts(ops, op);
      assert !Loses(ops, op);
      hide SameEffect, Canonical, Atoms, Base, Target, Loses, Repeat;
      if n == 0 {
        return;
      }
      baseLength := baseLength + n;
      targetLength := targetLength + n;
      if ops != [] && CanMerge(Last(ops), op) {
        ops := ops[|ops| - 1 := Merge(Last(ops), op)];
      } else {
        ops := ops + [op];
      }
      assert ops == Push(old(ops), op);
    }

    method Insert(text: string, props: Option<TrackingProps>, ids: CommentIds)
      requires Valid()
      modifies this
      ensures Valid() && ops == PushInsert(old(ops), text, props, ids)
      ensures SameEffect(Atoms(ops), old(Atoms(ops)) + Adds(Typed(text, props, ids)))
         <==> !Loses(old(ops), ScanOp.Insert(text, props, ids))
    {
      var op := ScanOp.Insert(text, props, ids);
      PushFacts(ops, op);
      if text == "" {
        return;
      }
      targetLength := targetLength + |text|;
      ops := InsertInto(ops, op);
    }

    /** `remove` takes a length of either sign. */
    method Remove(n: int)
      requires Valid()
      modifies this
      ensures Valid() && ops == PushRemove(old(ops), if n < 0 then -n else n)
      ensures SameEffect(Atoms(ops), old(Atoms(ops)) + Repeat(Drop, if n < 0 then -n else n))
    {
      var op := ScanOp.Remove(if n < 0 then -n else n);
      PushFacts(ops, op);
      assert !Loses(ops, op);
      hide SameEffect, Canonical, Atoms, Base, Target, Loses, Repeat;
      if n == 0 {
        return;
      }
      baseLength := baseLength + op.len;
      if ops != [] && CanMerge(Last(ops), op) {
        ops := ops[|ops| - 1 := Merge(Last(ops), op)];
      } else {
        ops := ops + [op];
      }
      assert ops == Push(old(ops), op);
    }

    /** Fails exactly on a length mismatch or an over-long result. */
    method Apply(doc: Doc) returns (r: Result<Doc, ApplyFailure>)
      requires Valid()
      ensures |doc| != baseLength ==> r == Err(LengthMismatch)
      ensures |doc| == baseLength ==>
        r == if targetLength > MAX_STRING_LENGTH then Err(TooLong) else Ok(ApplyOps(ops, doc))
    {
      if |doc| != baseLength {
        return Err(LengthMismatch);
      }
      var inputCursor, result := 0, [];
      ghost var done := [];
      for i := 0 to |ops|
        invariant done == ops[..i]
        invariant inputCursor == Base(Atoms(done)) <= |doc|
        invariant result == ApplyOps(done, doc[..inputCursor])
      {
        var op := ops[i];
        assert ops == done + [op] + ops[i + 1..];
        CursorStep(done, op, ops[i + 1..], doc, inputCursor);
        match op {
          case Retain(n, d) =>
            if inputCursor + n > |doc| {
              return Err(LengthMismatch);
            }
            result := result + Piece(op, doc[inputCursor..inputCursor + n]);
            inputCursor := inputCursor + n;
          case Insert(text, props, ids) =>
            result := result + Piece(op, []);
          case Remove(n) =>
            inputCursor := inputCursor + n;
        }
        done := done + [op];
      }
      assert ops[..|ops|] == ops;
      assert doc[..inputCursor] == doc;
      if inputCursor != |doc| {
        return Err(LengthMismatch);
      }
      if |result| > MAX_STRING_LENGTH {
        return Err(TooLong);
      }
      return Ok(result);
    }
  }
}
