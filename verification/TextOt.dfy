/**
  Text operations as an instance of operational transformation, so that the
  results about lists, rebasing and whole systems hold for the text operations
  of this library (overleaf-editor-core: text_operation.js lines 223-233 and
  643-791).
*/
module TextOt {
  import opened Common
  import opened TextModel
  import opened TextOperations
  import opened TextTransform
  import opened TextIds
  import opened TextMerge
  import opened OtLists
  import opened OtClients
  import opened OtSystem
  import opened Rebase

  type Text = Doc
  type Edit = seq<ScanOp>

  predicate Fits(doc: Doc, ops: Edit) { Proper(ops) && DistinctIds(ops) && Base(Atoms(ops)) == |doc| }

  predicate Matching(a: Edit, b: Edit) { Proper(a) && Proper(b) && Base(Atoms(a)) == Base(Atoms(b)) }

  /** `isNoop`: nothing at all, or one retain that leaves tracking alone. */
  predicate IsNoop(ops: Edit) {
    ops == [] || (|ops| == 1 && ops[0].Retain? && ops[0].directive.Leave?)
  }

  function TextOps(): Ot<Text, Edit> {
    Ot(
      (doc, ops) => Fits(doc, ops),
      (doc, ops) => if Fits(doc, ops) then ApplyOps(ops, doc) else doc,
      (a, b) => if Matching(a, b) then TransformOps(a, b) else (a, b),
      ops => IsNoop(ops))
  }

  /** The one-step diamond holds for text operations. */
  lemma TextDiamond()
    ensures Diamond(TextOps())
  {
    var ot := TextOps();
    forall s: Text, a: Edit, b: Edit | ot.can(s, a) && ot.can(s, b)
      ensures DiamondAt(ot, s, a, b)
    {
      TransformDiamond(a, b, s);
    }
  }

  lemma TextNoOps()
    ensures NoOpLaw(TextOps())
  {
    var ot := TextOps();
    forall s: Text, ops: Edit | ot.noop(ops) ensures ot.apply(s, ops) == s {
      if Fits(s, ops) && ops != [] {
        AtomsSingle(ops[0]);
        assert ops == [ops[0]];
        CountsRepeat(Keep(Leave), ops[0].len);
        KeepRun(ops[0].len, Leave, s);
      }
    }
  }

  /** Text editors converge, whatever the interleaving. */
  lemma TextEditorsConverge(doc: Doc, steps: seq<Step<Edit>>, s: System<Text, Edit>, i: nat, j: nat)
    requires Reaches(TextOps(), doc, steps, s) && i in s.peers && j in s.peers
    requires forall id :: id in {i, j} ==>
      s.peers[id].inFlight == [] && s.peers[id].refused == {} && s.peers[id].delivered == Versions(|s.log|)
    ensures s.peers[i].client.editor == s.peers[j].client.editor
    ensures s.peers[i].client.phase == s.peers[j].client.phase == Ready
  {
    TextDiamond();
    QuietClientsConverge(TextOps(), doc, steps, s, i);
    QuietClientsConverge(TextOps(), doc, steps, s, j);
  }

  /** Rebasing lists of text changes is sound. */
  lemma TextRebase(doc: Doc, ours: seq<seq<Edit>>, theirs: seq<seq<Edit>>)
    requires CanAll(TextOps(), doc, Flatten(ours)) && CanAll(TextOps(), doc, Flatten(theirs))
    ensures var ot := TextOps();
      var r := RebaseAll(ot, ours, theirs);
      ApplyAll(ot, ApplyAll(ot, doc, Flatten(theirs)), Flatten(Prune(ot, r.0)))
        == ApplyAll(ot, ApplyAll(ot, doc, Flatten(ours)), Flatten(r.1))
  {
    TextDiamond();
    TextNoOps();
    RebaseDiamond(TextOps(), doc, ours, theirs);
  }

  // ----- the document that editors and server come to -----

  lemma TransformedApply(doc: Doc, a: Edit, b: Edit)
    requires Fits(doc, a) && Fits(doc, b)
    ensures var ot := TextOps();
      var r := TransformLists(ot, [a], [b]);
      && ApplyAll(ot, ot.apply(doc, b), r.0) == Merged(a, b, doc)
      && ApplyAll(ot, ot.apply(doc, a), r.1) == Merged(a, b, doc)
  {
    var ot := TextOps();
    TransformMerges(a, b, doc);
    TextDiamond();
    assert DiamondAt(ot, doc, a, b);
    TransformSingle(ot, a, b);
    var p := ot.transform(a, b);
    ApplySingle(ot, ot.apply(doc, b), p.0);
    ApplySingle(ot, ot.apply(doc, a), p.1);
  }

  /** A request that missed the last entry of the log: with it the log comes to the two merged, the late text first. */
  lemma LateRequestMerges(doc: Doc, log: Log<Edit>, late: Edit, last: Edit)
    requires log != [] && Last(log).ops == [last]
    requires var before := StateAt(TextOps(), doc, log, |log| - 1); Fits(before, late) && Fits(before, last)
    ensures var before := StateAt(TextOps(), doc, log, |log| - 1);
      ApplyAll(TextOps(), StateAt(TextOps(), doc, log, |log|), Through(TextOps(), [late], log, |log| - 1, |log|))
        == Merged(late, last, before)
  {
    var ot, n := TextOps(), |log|;
    var before := StateAt(ot, doc, log, n - 1);
    ApplySingle(ot, before, last);
    assert Through(ot, [late], log, n - 1, n - 1) == [late];
    TransformedApply(before, late, last);
  }

  /** A note that meets an operation under way: the editor then shows the two merged, its own text first. */
  lemma RemoteNoteMerges(c: Client<Text, Edit>, seen: Doc, mine: Edit, theirs: Edit)
    requires Fits(seen, mine) && Fits(seen, theirs)
    requires c.outstanding == [mine] && c.pending == [] && c.editor == ApplyOps(mine, seen)
    ensures var r := HandleRemote(TextOps(), c, [theirs]); r.Ok? && r.value.editor == Merged(mine, theirs, seen)
  {
    TransformedApply(seen, mine, theirs);
  }

  // ----- all operations, whatever ids they carry, as far as text and tracking go -----

  predicate FitsMarkless(doc: Doc, ops: Edit) { doc == BlindDoc(doc) && Proper(ops) && Base(Atoms(ops)) == |doc| }

  /** The same operations and the same `transform`, on documents that show no comment marks. */
  function MarklessOps(): Ot<Text, Edit> {
    Ot(
      (doc, ops) => FitsMarkless(doc, ops),
      (doc, ops) => if FitsMarkless(doc, ops) then BlindDoc(ApplyOps(ops, doc)) else doc,
      (a, b) => if Matching(a, b) then TransformOps(a, b) else (a, b),
      ops => IsNoop(ops))
  }

  lemma BlindTwice(doc: Doc)
    ensures BlindDoc(BlindDoc(doc)) == BlindDoc(doc)
  {
  }

  /** Marks that are not shown do not change the rest of the result. */
  lemma MarksDoNotMatter(ops: Edit, doc: Doc)
    requires Base(Atoms(ops)) == |doc|
    ensures BlindDoc(ApplyOps(ops, BlindDoc(doc))) == BlindDoc(ApplyOps(ops, doc))
    ensures |ApplyOps(ops, doc)| == Target(Atoms(ops))
  {
    BlindTwice(doc);
    BlindFacts(ops, doc);
    BlindFacts(ops, BlindDoc(doc));
  }

  /** The diamond for text and tracking: here inserts may repeat ids. */
  lemma MarklessDiamond()
    ensures Diamond(MarklessOps())
  {
    var ot := MarklessOps();
    forall s: Text, a: Edit, b: Edit | ot.can(s, a) && ot.can(s, b)
      ensures DiamondAt(ot, s, a, b)
    {
      MarklessDiamondAt(s, a, b);
    }
  }

  lemma MarklessDiamondAt(s: Text, a: Edit, b: Edit)
    requires FitsMarkless(s, a) && FitsMarkless(s, b)
    ensures DiamondAt(MarklessOps(), s, a, b)
  {
    TextAndTrackingAgree(a, b, s);
    var r := TransformOps(a, b);
    var x, y := ApplyOps(a, s), ApplyOps(b, s);
    MarksDoNotMatter(a, s);
    MarksDoNotMatter(b, s);
    MarksDoNotMatter(r.1, x);
    MarksDoNotMatter(r.0, y);
    BlindTwice(x);
    BlindTwice(y);
  }

  /** Whatever ids inserts carry, quiet editors show the same text with the same tracking. */
  lemma MarklessEditorsConverge(doc: Doc, steps: seq<Step<Edit>>, s: System<Text, Edit>, i: nat, j: nat)
    requires Reaches(MarklessOps(), doc, steps, s) && i in s.peers && j in s.peers
    requires forall id :: id in {i, j} ==>
      s.peers[id].inFlight == [] && s.peers[id].refused == {} && s.peers[id].delivered == Versions(|s.log|)
    ensures s.peers[i].client.editor == s.peers[j].client.editor
    ensures s.peers[i].client.phase == s.peers[j].client.phase == Ready
  {
    MarklessDiamond();
    QuietClientsConverge(MarklessOps(), doc, steps, s, i);
    QuietClientsConverge(MarklessOps(), doc, steps, s, j);
  }

  // ----- transformAfter on changes of any size -----

  const REPLACE_X_BY_Y: Edit := [Insert("y", None, None), Remove(1)]
  const PREPEND_B: Edit := [Insert("b", None, None), Retain(1, Leave)]
  const REMOVE_X: Edit := [Remove(1)]

  lemma PairCounts(p: ScanOp, q: ScanOp)
    ensures Base(Atoms([p, q])) == Span(p) + Span(q)
    ensures Target(Atoms([p, q])) == (if p.Remove? then 0 else Width(p)) + (if q.Remove? then 0 else Width(q))
  {
    var ops := [p, q];
    assert ops[1..] == [q];
    AtomsSingle(q);
    CountsConcat(Expand(p), Expand(q));
    CountsExpand(p);
    CountsExpand(q);
  }

  /** The two operations that matter, and as many as it takes that change nothing. */
  function TwoAndIdle(m: nat): (r: seq<Edit>)
    requires 2 <= m
    ensures |r| == m
  {
    [REPLACE_X_BY_Y, PREPEND_B] + Times([Retain(2, Leave)], m - 2)
  }

  function OneAndIdle(n: nat): (r: seq<Edit>)
    requires 1 <= n
    ensures |r| == n
  {
    [REMOVE_X] + Times([], n - 1)
  }

  function Times(ops: Edit, n: nat): (r: seq<Edit>)
    ensures |r| == n
  {
    if n == 0 then [] else [ops] + Times(ops, n - 1)
  }

  lemma {:induction false} IdleCan(ops: Edit, n: nat, doc: Doc)
    requires Fits(doc, ops) && IsNoop(ops)
    ensures CanAll(TextOps(), doc, Times(ops, n))
  {
    if n > 0 {
      TextNoOps();
      IdleCan(ops, n - 1, doc);
      assert Times(ops, n)[1..] == Times(ops, n - 1);
      assert TextOps().noop(ops) && TextOps().apply(doc, ops) == doc;
    }
  }

  /** An insert into an empty document goes unchanged past operations that do nothing to it. */
  lemma {:induction false} InsertPastIdle(text: string, n: nat)
    requires text != ""
    ensures TransformOne(TextOps(), [Insert(text, None, None)], Times([], n)).0 == [Insert(text, None, None)]
  {
    if n > 0 {
      InsertPastIdle(text, n - 1);
      assert Times([], n)[1..] == Times([], n - 1);
      InsertAlone(text);
    }
  }

  lemma InsertAlone(text: string)
    requires text != ""
    ensures var a: Edit := [Insert(text, None, None)];
      var none: Edit := [];
      TextOps().transform(a, none).0 == a
  {
    var a: Edit, none: Edit := [Insert(text, None, None)], [];
    AtomsSingle(a[0]);
    CountsExpand(a[0]);
    assert Matching(a, none);
    AtomsHead(a);
    HeadingInsertLeft(a, none, none, none, TransformOps(a, none));
  }

  /** Past the removal only the insert is left of either operation. */
  lemma PastRemoval(text: string, op: ScanOp)
    requires text != "" && (op == Remove(1) || op == Retain(1, Leave))
    ensures Matching([Insert(text, None, None), op], REMOVE_X)
    ensures TextOps().transform([Insert(text, None, None), op], REMOVE_X).0 == [Insert(text, None, None)]
  {
    var none: Edit := [];
    var i := Insert(text, None, None);
    var a, b := [i, op], REMOVE_X;
    PairCounts(i, op);
    AtomsSingle(b[0]);
    CountsExpand(b[0]);
    assert Matching(a, b);
    var goal := TransformOps(a, b);
    HeadingInsertLeft(a, b, none, none, goal);
    assert a[1..] == [op] && Push(none, i) == [i];
    HeadingBase([op], b, [i], PushRetain(none, |text|, Leave), goal);
    assert TextTransform.Advance([op], 1) == none && TextTransform.Advance(b, 1) == none;
  }

  lemma LeftAfter(text: string, op: ScanOp, n: nat)
    requires text != "" && (op == Remove(1) || op == Retain(1, Leave)) && 1 <= n
    ensures TransformOne(TextOps(), [Insert(text, None, None), op], OneAndIdle(n)).0 == [Insert(text, None, None)]
  {
    PastRemoval(text, op);
    InsertPastIdle(text, n - 1);
    assert OneAndIdle(n)[1..] == Times([], n - 1);
  }

  /**
    For a change with two or more operations, and at least one other, `transformAfter`
    can give operations that do not fit the text they should be applied to, where
    rebasing gives ones that do: it forgets that the first operation already
    carried the other change forward.
  */
  lemma TransformAfterBreaks(x: DocChar, m: nat, n: nat)
    requires 2 <= m && 1 <= n
    ensures var ot := TextOps();
      var ops, others := TwoAndIdle(m), OneAndIdle(n);
      && CanAll(ot, [x], ops) && CanAll(ot, [x], others)
      && CanAll(ot, ApplyAll(ot, [x], others), TransformLists(ot, ops, others).0)
      && !CanAll(ot, ApplyAll(ot, [x], others), TransformAfterOps(ot, ops, others))
  {
    var ot, ops, others := TextOps(), TwoAndIdle(m), OneAndIdle(n);
    ExampleFits(x, m, n);
    TextDiamond();
    DiamondLists(ot, [x], ops, others);
    var after := TransformAfterOps(ot, ops, others);
    EachOnItsOwn(ot, ops, others);
    LeftAfter("y", Remove(1), n);
    LeftAfter("b", Retain(1, Leave), n);
    assert ops[0] == REPLACE_X_BY_Y && ops[1] == PREPEND_B;
    NotBoth(ApplyAll(ot, [x], others), after);
  }

  /** Two inserts into an empty document cannot follow one another. */
  lemma NotBoth(doc: Doc, ops: seq<Edit>)
    requires 2 <= |ops| && ops[0] == [Insert("y", None, None)] && ops[1] == [Insert("b", None, None)]
    ensures !CanAll(TextOps(), doc, ops)
  {
    var ot := TextOps();
    AtomsSingle(ops[0][0]);
    AtomsSingle(ops[1][0]);
    CountsExpand(ops[0][0]);
    CountsExpand(ops[1][0]);
    if ot.can(doc, ops[0]) {
      assert |ot.apply(doc, ops[0])| == 1;
      assert !ot.can(ot.apply(doc, ops[0]), ops[1]);
      assert ops[1..][0] == ops[1];
    }
  }

  lemma ExampleFits(x: DocChar, m: nat, n: nat)
    requires 2 <= m && 1 <= n
    ensures CanAll(TextOps(), [x], TwoAndIdle(m)) && CanAll(TextOps(), [x], OneAndIdle(n))
  {
    TwoFit(x, m);
    OneFits(x, n);
  }

  lemma TwoFit(x: DocChar, m: nat)
    requires 2 <= m
    ensures CanAll(TextOps(), [x], TwoAndIdle(m))
  {
    var ot, a, b := TextOps(), REPLACE_X_BY_Y, PREPEND_B;
    PairCounts(a[0], a[1]);
    PairCounts(b[0], b[1]);
    var y := ot.apply([x], a);
    var yb := ot.apply(y, b);
    assert ot.can([x], a) && ot.can(y, b) && |yb| == 2;
    AtomsSingle(Retain(2, Leave));
    CountsExpand(Retain(2, Leave));
    IdleCan([Retain(2, Leave)], m - 2, yb);
    hide Times, Fits, IsNoop, ApplyOps, Atoms;
    assert TwoAndIdle(m)[1..] == [b] + Times([Retain(2, Leave)], m - 2);
    assert TwoAndIdle(m)[1..][1..] == Times([Retain(2, Leave)], m - 2);
  }

  lemma OneFits(x: DocChar, n: nat)
    requires 1 <= n
    ensures CanAll(TextOps(), [x], OneAndIdle(n))
  {
    var ot, c := TextOps(), REMOVE_X;
    AtomsSingle(c[0]);
    CountsExpand(c[0]);
    assert ot.can([x], c) && ot.apply([x], c) == [];
    IdleCan([], n - 1, []);
    assert OneAndIdle(n)[1..] == Times([], n - 1);
  }

  /** On changes with m operations, past others with n, `transformAfter` does what rebasing does. */
  ghost predicate AfterAgrees(m: nat, n: nat) {
    forall doc: Doc, ops: seq<Edit>, others: seq<Edit> ::
      |ops| == m && |others| == n && CanAll(TextOps(), doc, ops) && CanAll(TextOps(), doc, others)
      ==> TransformAfterOps(TextOps(), ops, others) == TransformLists(TextOps(), ops, others).0
  }

  lemma TransformAfterAgreesExactlyWhen(m: nat, n: nat)
    ensures AfterAgrees(m, n) <==> m <= 1 || n == 0
  {
    if m <= 1 || n == 0 {
      forall ops: seq<Edit>, others: seq<Edit> | |ops| == m && |others| == n
        ensures TransformAfterOps(TextOps(), ops, others) == TransformLists(TextOps(), ops, others).0
      {
        TransformAfterAgrees(TextOps(), ops, others);
      }
    } else {
      TransformAfterBreaks(DocChar('x', None, {}), m, n);
    }
  }
}
