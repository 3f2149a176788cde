/**
  The builder's promise that operations with the same effect are equal
  (overleaf-editor-core: text_operation.js lines 96-115 and 174-187, scan_op.js
  lines 142-168). It holds for operations whose lists of comment ids are neither
  empty nor repetitive, and for no other list: documents carry the set of ids, the
  comparison looks at the list.
*/
module CanonicalForm {
  import opened Common
  import opened TextModel
  import opened TextOperations
  import opened TextIds

  /** The same result on every document they apply to, and they apply to the same ones. */
  ghost predicate SameOnAll(a: seq<ScanOp>, b: seq<ScanOp>) {
    && Base(Atoms(a)) == Base(Atoms(b))
    && forall doc: Doc :: |doc| == Base(Atoms(a)) ==> ApplyOps(a, doc) == ApplyOps(b, doc)
  }

  // ----- from results on documents to where each character comes from -----

  function Untouched(c: char, tracking: Option<TrackingProps>): DocChar { DocChar(c, tracking, {}) }

  /** All characters alike, but for the one at i. */
  function Spotted(n: nat, i: nat, spot: DocChar, other: DocChar): Doc {
    seq(n, m => if m == i then spot else other)
  }

  function OtherChar(c: char): char { if c == 'a' then 'b' else 'a' }

  /** A document that tells two different outputs apart. */
  function Witness(n: nat, o: Out, p: Out): Doc {
    match (o, p)
    case (Copy(i, d), Copy(j, e)) =>
      if i != j then Spotted(n, i, Untouched('a', None), Untouched('b', None))
      else if d.Clear? || e.Clear? then Spotted(n, i, Untouched('a', Some(TrackingProps(TrackedInsert, ""))), Untouched('a', None))
      else Spotted(n, i, Untouched('a', None), Untouched('a', None))
    case (Copy(i, _), New(ch)) => Spotted(n, i, Untouched(OtherChar(ch.c), None), Untouched('a', None))
    case (New(ch), Copy(i, _)) => Spotted(n, i, Untouched(OtherChar(ch.c), None), Untouched('a', None))
    case _ => Spotted(n, 0, Untouched('a', None), Untouched('a', None))
  }

  lemma WitnessTells(n: nat, o: Out, p: Out)
    requires (o.Copy? ==> o.index < n) && (p.Copy? ==> p.index < n)
    ensures |Witness(n, o, p)| == n
    ensures Realize(o, Witness(n, o, p), 0) == Realize(p, Witness(n, o, p), 0) ==> o == p
  {
  }

  lemma ResultsTell(x: seq<Atom>, y: seq<Atom>)
    requires Base(x) == Base(y)
    requires forall doc: Doc :: |doc| == Base(x) ==> ApplyAtoms(x, doc) == ApplyAtoms(y, doc)
    ensures SameEffect(x, y)
  {
    var n := Base(x);
    var some := Spotted(n, 0, Untouched('a', None), Untouched('a', None));
    assert |ApplyAtoms(x, some)| == |ApplyAtoms(y, some)|;
    forall j | 0 <= j < Target(x) ensures Render(x, 0)[j] == Render(y, 0)[j] {
      var o, p := Render(x, 0)[j], Render(y, 0)[j];
      ApplyIsRender(x, some, 0);
      ApplyIsRender(y, some, 0);
      WitnessTells(n, o, p);
      var doc := Witness(n, o, p);
      ApplyIsRender(x, doc, 0);
      ApplyIsRender(y, doc, 0);
      assert ApplyAtoms(x, doc)[j] == ApplyAtoms(y, doc)[j];
    }
  }

  // ----- from the effect to the atoms -----

  ghost predicate AddsFirst(x: seq<Atom>) {
    forall i :: 0 <= i < |x| - 1 ==> !(x[i].Drop? && x[i + 1].Add?)
  }

  /** The atoms with this effect in which no insertion follows a removal. */
  function AtomsOf(outs: seq<Out>, k: nat, end: nat): seq<Atom>
    decreases |outs| + (if k < end then end - k else 0)
  {
    if outs != [] && outs[0].New? then [Add(outs[0].ch)] + AtomsOf(outs[1..], k, end)
    else if outs != [] && outs[0].index == k then [Keep(outs[0].directive)] + AtomsOf(outs[1..], k + 1, end)
    else if k < end then [Drop] + AtomsOf(outs, k + 1, end)
    else []
  }

  lemma {:induction false} FirstIsCopied(x: seq<Atom>, k: nat)
    requires AddsFirst(x) && (x != [] ==> !x[0].Add?)
    ensures Render(x, k) != [] ==> Render(x, k)[0].Copy? && Render(x, k)[0].index >= k
  {
    if x != [] && x[0].Drop? {
      assert AddsFirst(x[1..]);
      FirstIsCopied(x[1..], k + 1);
    }
  }

  lemma {:induction false} EffectGivesAtoms(x: seq<Atom>, k: nat)
    requires AddsFirst(x)
    ensures AtomsOf(Render(x, k), k, k + Base(x)) == x
  {
    if x != [] {
      var rest := x[1..];
      assert AddsFirst(rest) && x == [x[0]] + rest;
      match x[0] {
        case Keep(d) =>
          EffectGivesAtoms(rest, k + 1);
          assert Render(x, k)[1..] == Render(rest, k + 1);
        case Add(ch) =>
          EffectGivesAtoms(rest, k);
          assert Render(x, k)[1..] == Render(rest, k);
        case Drop =>
          EffectGivesAtoms(rest, k + 1);
          FirstIsCopied(rest, k + 1);
      }
    }
  }

  // ----- from the atoms to the operations -----

  lemma ListGrows(s: seq<string>, id: string)
    requires NoRepeat(Some(s)) && id !in IdSet(Some(s))
    ensures NoRepeat(Some(s + [id])) && IdSet(Some(s + [id])) == IdSet(Some(s)) + {id}
  {
    NoRepeatSnoc(s, id);
  }

  /** The ids of a set in some fixed order. */
  ghost function ListOf(ids: set<string>): (r: seq<string>)
    ensures NoRepeat(Some(r)) && IdSet(Some(r)) == ids && |r| == |ids|
  {
    if ids == {} then
      assert IdSet(Some([])) == {};
      []
    else
      var id :| id in ids;
      var rest := ListOf(ids - {id});
      ListGrows(rest, id);
      rest + [id]
  }

  ghost function IdsOf(ids: set<string>): CommentIds { if ids == {} then None else Some(ListOf(ids)) }

  /** An insert whose ids stand in that order. */
  ghost predicate TidyOp(op: ScanOp) { op.Insert? ==> op.ids == IdsOf(IdSet(op.ids)) }

  ghost predicate Tidy(ops: seq<ScanOp>) {
    forall i :: 0 <= i < |ops| ==> TidyOp(ops[i])
  }

  ghost function One(a: Atom): ScanOp {
    match a
    case Keep(d) => Retain(1, d)
    case Drop => Remove(1)
    case Add(ch) => Insert([ch.c], ch.tracking, IdsOf(ch.comments))
  }

  ghost function Group(x: seq<Atom>): seq<ScanOp> {
    if x == [] then [] else PushMerging(Group(Front(x)), One(Last(x)))
  }

  function Length(op: ScanOp): nat { if op.Insert? then |op.text| else op.len }

  function Shorter(op: ScanOp): ScanOp
    requires Length(op) > 0
  {
    match op
    case Retain(n, d) => Retain(n - 1, d)
    case Insert(text, p, ids) => Insert(Front(text), p, ids)
    case Remove(n) => Remove(n - 1)
  }

  lemma ShorterFacts(op: ScanOp)
    requires Length(op) > 0 && TidyOp(op)
    ensures Expand(op) != [] && Front(Expand(op)) == Expand(Shorter(op)) && TidyOp(Shorter(op))
    ensures CanMerge(Shorter(op), One(Last(Expand(op)))) && Merge(Shorter(op), One(Last(Expand(op)))) == op
    ensures Length(op) == 1 ==> One(Last(Expand(op))) == op
  {
    if op.Insert? {
      assert op.text == Front(op.text) + [Last(op.text)];
      assert Last(Expand(op)) == Add(DocChar(Last(op.text), op.props, IdSet(op.ids)));
    }
  }

  lemma ShorterMerges(before: ScanOp, op: ScanOp)
    requires Length(op) > 0
    ensures CanMerge(before, Shorter(op)) <==> CanMerge(before, op)
  {
  }

  lemma PushJoins(front: seq<ScanOp>, op: ScanOp, one: ScanOp)
    requires CanMerge(op, one)
    ensures PushMerging(front + [op], one) == front + [Merge(op, one)]
  {
    assert Front(front + [op]) == front;
  }

  lemma PushStarts(front: seq<ScanOp>, op: ScanOp)
    requires front != [] ==> !CanMerge(Last(front), op)
    ensures PushMerging(front, op) == front + [op]
  {
  }

  lemma GroupLast(x: seq<Atom>, a: Atom)
    ensures Group(x + [a]) == PushMerging(Group(x), One(a))
  {
    assert Front(x + [a]) == x;
  }

  lemma {:induction false} GroupSnoc(x: seq<Atom>, front: seq<ScanOp>, op: ScanOp)
    requires Group(x) == front && Length(op) > 0 && TidyOp(op)
    requires front != [] ==> !CanMerge(Last(front), op)
    ensures Group(x + Expand(op)) == front + [op]
    decreases Length(op)
  {
    hide Group, PushMerging, CanMerge, Merge, One;
    var less, last := Front(Expand(op)), Last(Expand(op));
    ShorterFacts(op);
    if front != [] { ShorterMerges(Last(front), op); }
    assert x + Expand(op) == (x + less) + [last];
    GroupLast(x + less, last);
    if Length(op) == 1 {
      assert less == [] && x + less == x;
      PushStarts(front, op);
    } else {
      GroupSnoc(x, front, Shorter(op));
      PushJoins(front, Shorter(op), One(last));
    }
  }

  lemma CanonicalFront(ops: seq<ScanOp>)
    requires Canonical(ops) && Tidy(ops) && ops != []
    ensures Canonical(Front(ops)) && Tidy(Front(ops)) && Length(Last(ops)) > 0 && TidyOp(Last(ops))
    ensures Front(ops) != [] ==> !CanMerge(Last(Front(ops)), Last(ops)) && !(Last(Front(ops)).Remove? && Last(ops).Insert?)
  {
    assert !IsZero(ops[|ops| - 1]);
    if |ops| > 1 {
      assert Last(Front(ops)) == ops[|ops| - 2];
    }
  }

  lemma {:induction false} GroupRebuilds(ops: seq<ScanOp>)
    requires Canonical(ops) && Tidy(ops)
    ensures Group(Atoms(ops)) == ops && AddsFirst(Atoms(ops))
    ensures ops != [] ==> Atoms(ops) != [] && (Last(Atoms(ops)).Drop? <==> Last(ops).Remove?)
  {
    if ops != [] {
      var front, op := Front(ops), Last(ops);
      CanonicalFront(ops);
      GroupRebuilds(front);
      assert ops == front + [op];
      AtomsSnoc(front, op);
      GroupSnoc(Atoms(front), front, op);
      JoinAddsFirst(Atoms(front), front, op);
    }
  }

  lemma JoinAddsFirst(x: seq<Atom>, front: seq<ScanOp>, op: ScanOp)
    requires AddsFirst(x) && Length(op) > 0
    requires front != [] ==> x != [] && (Last(x).Drop? <==> Last(front).Remove?) && !(Last(front).Remove? && op.Insert?)
    requires front == [] ==> x == []
    ensures AddsFirst(x + Expand(op)) && Expand(op) != [] && (Last(x + Expand(op)).Drop? <==> op.Remove?)
  {
    var run := Expand(op);
    assert forall i :: 0 <= i < |run| ==> (run[i].Add? <==> op.Insert?) && (run[i].Drop? <==> op.Remove?);
  }

  // ----- the promise -----

  /** A canonical operation can be read off its effect. */
  lemma EffectRebuilds(ops: seq<ScanOp>)
    requires Canonical(ops) && Tidy(ops)
    ensures ops == Group(AtomsOf(Render(Atoms(ops), 0), 0, Base(Atoms(ops))))
  {
    GroupRebuilds(ops);
    AtomsRebuild(Atoms(ops));
  }

  lemma AtomsRebuild(x: seq<Atom>)
    requires AddsFirst(x)
    ensures Group(AtomsOf(Render(x, 0), 0, Base(x))) == Group(x)
  {
    EffectGivesAtoms(x, 0);
    assert AtomsOf(Render(x, 0), 0, 0 + Base(x)) == x;
  }

  lemma SameOnAllMeansSameEffect(a: seq<ScanOp>, b: seq<ScanOp>)
    requires SameOnAll(a, b)
    ensures SameEffect(Atoms(a), Atoms(b))
  {
    var x, y := Atoms(a), Atoms(b);
    forall doc: Doc | |doc| == Base(x) ensures ApplyAtoms(x, doc) == ApplyAtoms(y, doc) {
      assert ApplyOps(a, doc) == ApplyOps(b, doc);
    }
    ResultsTell(x, y);
  }

  // ----- equality -----

  predicate EqualOp(a: ScanOp, b: ScanOp) {
    match (a, b)
    case (Retain(n, d), Retain(m, e)) => n == m && d == e
    case (Insert(s, p, ids), Insert(t, q, jds)) => s == t && p == q && SameIds(ids, jds)
    case (Remove(n), Remove(m)) => n == m
    case _ => false
  }

  /** `equals` of two operations. */
  predicate EqualOps(a: seq<ScanOp>, b: seq<ScanOp>) {
    |a| == |b| && forall i :: 0 <= i < |a| ==> EqualOp(a[i], b[i])
  }

  /** A list of ids that is neither empty nor repeats one, or no list. */
  predicate PlainIds(ids: CommentIds) { NoRepeat(ids) && ids != Some([]) }

  predicate PlainOp(op: ScanOp) { op.Insert? ==> PlainIds(op.ids) }

  predicate Plain(ops: seq<ScanOp>) {
    forall i :: 0 <= i < |ops| ==> PlainOp(ops[i])
  }

  lemma PlainIdsCompare(ids: CommentIds, jds: CommentIds)
    requires PlainIds(ids) && PlainIds(jds)
    ensures SameIds(ids, jds) <==> IdSet(ids) == IdSet(jds)
  {
    assert ids.Some? ==> ids.value[0] in IdSet(ids);
    assert jds.Some? ==> jds.value[0] in IdSet(jds);
    if ids.Some? && jds.Some? {
      SetOfList(ids.value);
      SetOfList(jds.value);
      assert forall id :: id in ids.value <==> id in IdSet(ids);
      assert forall id :: id in jds.value <==> id in IdSet(jds);
    }
    if SameIds(ids, jds) {
      SameIdsSameSet(ids, jds);
    }
  }

  /** The same operation with its ids in a fixed order. */
  ghost function TidiedOp(op: ScanOp): ScanOp {
    if op.Insert? then Insert(op.text, op.props, IdsOf(IdSet(op.ids))) else op
  }

  ghost function Tidied(ops: seq<ScanOp>): (r: seq<ScanOp>)
    ensures |r| == |ops| && forall i :: 0 <= i < |ops| ==> r[i] == TidiedOp(ops[i])
  {
    seq(|ops|, i requires 0 <= i < |ops| => TidiedOp(ops[i]))
  }

  lemma TidiedIds(ids: set<string>)
    ensures PlainIds(IdsOf(ids)) && IdSet(IdsOf(ids)) == ids
  {
  }

  lemma TidiedTyped(op: ScanOp)
    ensures TidyOp(TidiedOp(op)) && PlainOp(TidiedOp(op)) && Expand(TidiedOp(op)) == Expand(op)
  {
    if op.Insert? { TidiedIds(IdSet(op.ids)); }
  }

  lemma TidiedMerges(a: ScanOp, b: ScanOp)
    requires PlainOp(a) && PlainOp(b)
    ensures CanMerge(TidiedOp(a), TidiedOp(b)) <==> CanMerge(a, b)
    ensures EqualOp(a, b) <==> TidiedOp(a) == TidiedOp(b)
  {
    if a.Insert? && b.Insert? {
      TidiedIds(IdSet(a.ids));
      TidiedIds(IdSet(b.ids));
      PlainIdsCompare(a.ids, b.ids);
      PlainIdsCompare(IdsOf(IdSet(a.ids)), IdsOf(IdSet(b.ids)));
    }
  }

  lemma {:induction false} TidiedAtoms(ops: seq<ScanOp>)
    ensures Tidy(Tidied(ops)) && Atoms(Tidied(ops)) == Atoms(ops)
  {
    forall i | 0 <= i < |ops| ensures TidyOp(Tidied(ops)[i]) { TidiedTyped(ops[i]); }
    if ops != [] {
      TidiedTyped(ops[0]);
      TidiedAtoms(ops[1..]);
      assert Tidied(ops)[1..] == Tidied(ops[1..]);
    }
  }

  lemma TidiedCanonical(ops: seq<ScanOp>)
    requires Canonical(ops) && Plain(ops)
    ensures Canonical(Tidied(ops))
  {
    var t := Tidied(ops);
    forall i | 0 <= i < |t| - 1 ensures !CanMerge(t[i], t[i + 1]) {
      assert PlainOp(ops[i]) && PlainOp(ops[i + 1]);
      TidiedMerges(ops[i], ops[i + 1]);
    }
  }

  lemma EqualMeansTidied(a: seq<ScanOp>, b: seq<ScanOp>)
    requires Plain(a) && Plain(b)
    ensures EqualOps(a, b) <==> Tidied(a) == Tidied(b)
  {
    forall i | 0 <= i < |a| && i < |b| ensures EqualOp(a[i], b[i]) <==> Tidied(a)[i] == Tidied(b)[i] {
      assert PlainOp(a[i]) && PlainOp(b[i]);
      TidiedMerges(a[i], b[i]);
    }
  }

  /**
    Canonical operations whose id lists are neither empty nor repetitive are equal
    if and only if they do the same to every document.
  */
  lemma SameEffectMeansEqual(a: seq<ScanOp>, b: seq<ScanOp>)
    requires Canonical(a) && Canonical(b) && Plain(a) && Plain(b)
    ensures SameOnAll(a, b) <==> EqualOps(a, b)
  {
    hide Render, Atoms, Group, AtomsOf, Tidied, SameEffect, ApplyOps;
    TidiedAtoms(a);
    TidiedAtoms(b);
    EqualMeansTidied(a, b);
    if SameOnAll(a, b) {
      TidiedCanonical(a);
      TidiedCanonical(b);
      SameOnAllMeansSameEffect(a, b);
      EffectRebuilds(Tidied(a));
      EffectRebuilds(Tidied(b));
      SameRendering(Atoms(a), Atoms(b));
    }
    if EqualOps(a, b) {
      SameAtomsSameOnAll(a, b);
    }
  }

  lemma SameRendering(x: seq<Atom>, y: seq<Atom>)
    requires SameEffect(x, y)
    ensures Base(x) == Base(y) && Render(x, 0) == Render(y, 0)
  {
  }

  lemma SameAtomsSameOnAll(a: seq<ScanOp>, b: seq<ScanOp>)
    requires Atoms(a) == Atoms(b)
    ensures SameOnAll(a, b)
  {
  }

  // ----- the families that break the promise -----

  /** After a retain, or at the very start, nothing is merged with a new insert. */
  ghost predicate Fresh(start: seq<ScanOp>) { Canonical(start) && (start != [] ==> Last(start).Retain?) }

  lemma FreshInsert(start: seq<ScanOp>, text: string, props: Option<TrackingProps>, ids: CommentIds)
    requires Fresh(start) && text != ""
    ensures var a := PushInsert(start, text, props, ids);
      Canonical(a) && a == start + [Insert(text, props, ids)] && Atoms(a) == Atoms(start) + Adds(Typed(text, props, ids))
  {
    PushCanonical(start, Insert(text, props, ids));
    AtomsSnoc(start, Insert(text, props, ids));
  }

  lemma SameSetTypes(text: string, props: Option<TrackingProps>, ids: CommentIds, jds: CommentIds)
    ensures IdSet(ids) == IdSet(jds) ==> Typed(text, props, ids) == Typed(text, props, jds)
  {
  }

  /** Two lists for the same comments that the comparison tells apart: same effect, and not equal. */
  lemma SameSetDiffers(start: seq<ScanOp>, text: string, props: Option<TrackingProps>, ids: CommentIds, jds: CommentIds)
    requires Fresh(start) && text != "" && IdSet(ids) == IdSet(jds) && !SameIds(ids, jds)
    ensures var a, b := PushInsert(start, text, props, ids), PushInsert(start, text, props, jds);
      Canonical(a) && Canonical(b) && SameOnAll(a, b) && !EqualOps(a, b)
  {
    FreshInsert(start, text, props, ids);
    FreshInsert(start, text, props, jds);
    SameSetTypes(text, props, ids, jds);
    var a, b := PushInsert(start, text, props, ids), PushInsert(start, text, props, jds);
    assert !EqualOp(a[|start|], b[|start|]);
    SameAtomsSameOnAll(a, b);
  }

  /** All inserts carry this list, or a plain one. */
  predicate UsesOrPlain(ops: seq<ScanOp>, ids: CommentIds) {
    forall k :: 0 <= k < |ops| ==> ops[k].Insert? ==> ops[k].ids == ids || PlainIds(ops[k].ids)
  }

  ghost predicate ComparesRight(a: seq<ScanOp>, b: seq<ScanOp>) {
    Canonical(a) && Canonical(b) ==> (SameOnAll(a, b) <==> EqualOps(a, b))
  }

  ghost predicate SafeToCompare(ids: CommentIds) {
    forall a, b :: UsesOrPlain(a, ids) && UsesOrPlain(b, ids) ==> ComparesRight(a, b)
  }

  /** The promise holds for all operations that use a list, besides plain ones, iff that list is plain. */
  lemma SafeToCompareExactlyWhen(ids: CommentIds)
    ensures SafeToCompare(ids) <==> PlainIds(ids)
  {
    if PlainIds(ids) {
      forall a, b | UsesOrPlain(a, ids) && UsesOrPlain(b, ids) ensures ComparesRight(a, b) {
        assert Plain(a) && Plain(b);
        if Canonical(a) && Canonical(b) { SameEffectMeansEqual(a, b); }
      }
    } else {
      var jds := PlainTwin(ids);
      var none: seq<ScanOp> := [];
      SameSetDiffers(none, "x", None, ids, jds);
      var a, b := PushInsert(none, "x", None, ids), PushInsert(none, "x", None, jds);
      FreshInsert(none, "x", None, ids);
      FreshInsert(none, "x", None, jds);
      assert UsesOrPlain(a, ids) && UsesOrPlain(b, ids) && !ComparesRight(a, b);
    }
  }

  /** A plain list for the same comments, which the comparison tells from this one. */
  lemma PlainTwin(ids: CommentIds) returns (jds: CommentIds)
    requires !PlainIds(ids)
    ensures PlainIds(jds) && IdSet(ids) == IdSet(jds) && !SameIds(ids, jds)
  {
    if ids == Some([]) {
      jds := None;
      assert IdSet(ids) == {};
    } else {
      OnceFacts(ids.value);
      jds := Some(Once(ids.value));
      assert ids.value[0] in Once(ids.value);
      assert IdSet(jds) == IdSet(ids);
    }
  }

  /** The other way: two lists the comparison confuses are equal, and do not do the same. */
  lemma ConfusedListsAreEqual(start: seq<ScanOp>, text: string, props: Option<TrackingProps>, ids: CommentIds, jds: CommentIds)
    requires Fresh(start) && text != "" && Confused(ids, jds)
    ensures var a, b := PushInsert(start, text, props, ids), PushInsert(start, text, props, jds);
      EqualOps(a, b) && !SameOnAll(a, b)
  {
    FreshInsert(start, text, props, ids);
    FreshInsert(start, text, props, jds);
    var a, b := PushInsert(start, text, props, ids), PushInsert(start, text, props, jds);
    forall i | 0 <= i < |start| ensures EqualOp(start[i], start[i]) { }
    RenderSnocAdds(Atoms(start), Typed(text, props, ids));
    RenderSnocAdds(Atoms(start), Typed(text, props, jds));
    if SameOnAll(a, b) { SameOnAllMeansSameEffect(a, b); }
  }
}
