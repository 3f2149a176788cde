/**
  Documents and text operations (overleaf-editor-core: scan_op.js and the
  builder and `apply` of text_operation.js).

  A document is a sequence of characters, each with its tracking and the ids of
  the comments that cover it. The meaning of a list of scan operations is a list
  of atoms, one per base character or inserted character.
*/
module TextModel {
  import opened Common

  datatype TrackingKind = TrackedInsert | TrackedDelete

  // Two tracking props with the same type and author are the ones the source merges.
  datatype TrackingProps = TrackingProps(kind: TrackingKind, userId: string)

  // What a retain says about tracking: nothing, new props, or "clear".
  datatype Directive = Leave | Assign(props: TrackingProps) | Clear

  datatype DocChar = DocChar(c: char, tracking: Option<TrackingProps>, comments: set<string>)

  type Doc = seq<DocChar>

  // The comment ids of an insert, as a list: an id may occur in it more than once.
  type CommentIds = Option<seq<string>>

  datatype ScanOp =
    | Retain(len: nat, directive: Directive)
    | Insert(text: string, props: Option<TrackingProps>, ids: CommentIds)
    | Remove(len: nat)

  datatype Atom = Keep(directive: Directive) | Drop | Add(ch: DocChar)

  function Mark(ch: DocChar, d: Directive): DocChar {
    match d
    case Leave => ch
    case Assign(p) => ch.(tracking := Some(p))
    case Clear => ch.(tracking := None)
  }

  function Repeat(a: Atom, n: nat): seq<Atom> { seq(n, _ => a) }

  function IdSet(ids: CommentIds): set<string> {
    if ids.Some? then set id | id in ids.value else {}
  }

  function Typed(text: string, props: Option<TrackingProps>, ids: CommentIds): Doc {
    seq(|text|, i requires 0 <= i < |text| => DocChar(text[i], props, IdSet(ids)))
  }

  function Adds(text: Doc): seq<Atom> {
    seq(|text|, i requires 0 <= i < |text| => Add(text[i]))
  }

  function Expand(op: ScanOp): seq<Atom> {
    match op
    case Retain(n, d) => Repeat(Keep(d), n)
    case Insert(text, props, ids) => Adds(Typed(text, props, ids))
    case Remove(n) => Repeat(Drop, n)
  }

  function Atoms(ops: seq<ScanOp>): seq<Atom> {
    if ops == [] then [] else Expand(ops[0]) + Atoms(ops[1..])
  }

  /** How many base characters a list of atoms consumes. */
  function Base(x: seq<Atom>): nat {
    if x == [] then 0 else (if x[0].Add? then 0 else 1) + Base(x[1..])
  }

  /** How many characters a list of atoms produces. */
  function Target(x: seq<Atom>): nat {
    if x == [] then 0 else (if x[0].Drop? then 0 else 1) + Target(x[1..])
  }

  function ApplyAtoms(x: seq<Atom>, doc: Doc): (r: Doc)
    requires Base(x) == |doc|
    ensures |r| == Target(x)
  {
    if x == [] then []
    else match x[0]
      case Keep(d) => [Mark(doc[0], d)] + ApplyAtoms(x[1..], doc[1..])
      case Drop => ApplyAtoms(x[1..], doc[1..])
      case Add(ch) => [ch] + ApplyAtoms(x[1..], doc)
  }

  /** The atom that consumes base character i. */
  function BaseAtom(x: seq<Atom>, i: nat): Atom
    requires i < Base(x)
  {
    if x[0].Add? then BaseAtom(x[1..], i)
    else if i == 0 then x[0]
    else BaseAtom(x[1..], i - 1)
  }

  // ----- the effect of a list of atoms, independent of any document -----

  datatype Out = Copy(index: nat, directive: Directive) | New(ch: DocChar)

  /** The output, described by where each character comes from. */
  function Render(x: seq<Atom>, k: nat): (r: seq<Out>)
    ensures |r| == Target(x)
  {
    if x == [] then []
    else match x[0]
      case Keep(d) => [Copy(k, d)] + Render(x[1..], k + 1)
      case Drop => Render(x[1..], k + 1)
      case Add(ch) => [New(ch)] + Render(x[1..], k)
  }

  ghost predicate SameEffect(x: seq<Atom>, y: seq<Atom>) {
    Base(x) == Base(y) && Render(x, 0) == Render(y, 0)
  }

  lemma {:induction false} AtomsConcat(a: seq<ScanOp>, b: seq<ScanOp>)
    ensures Atoms(a + b) == Atoms(a) + Atoms(b)
  {
    if a == [] {
      assert a + b == b;
    } else {
      assert (a + b)[0] == a[0] && (a + b)[1..] == a[1..] + b;
      AtomsConcat(a[1..], b);
    }
  }

  lemma AtomsSingle(op: ScanOp)
    ensures Atoms([op]) == Expand(op)
  {
    assert Atoms([op]) == Expand(op) + Atoms([]);
  }

  lemma {:induction false} CountsConcat(x: seq<Atom>, y: seq<Atom>)
    ensures Base(x + y) == Base(x) + Base(y)
    ensures Target(x + y) == Target(x) + Target(y)
  {
    if x == [] {
      assert x + y == y;
    } else {
      assert (x + y)[0] == x[0] && (x + y)[1..] == x[1..] + y;
      CountsConcat(x[1..], y);
    }
  }

  lemma {:induction false} CountsRepeat(a: Atom, n: nat)
    ensures Base(Repeat(a, n)) == if a.Add? then 0 else n
    ensures Target(Repeat(a, n)) == if a.Drop? then 0 else n
  {
    if n != 0 {
      assert Repeat(a, n)[1..] == Repeat(a, n - 1);
      CountsRepeat(a, n - 1);
    }
  }

  lemma {:induction false} CountsAdds(text: Doc)
    ensures Base(Adds(text)) == 0 && Target(Adds(text)) == |text|
  {
    if text != [] {
      assert Adds(text)[1..] == Adds(text[1..]);
      CountsAdds(text[1..]);
    }
  }

  lemma CountsExpand(op: ScanOp)
    ensures Base(Expand(op)) == if op.Insert? then 0 else op.len
    ensures Target(Expand(op)) == if op.Insert? then |op.text| else if op.Retain? then op.len else 0
  {
    match op
    case Retain(n, d) => CountsRepeat(Keep(d), n);
    case Insert(text, props, ids) => CountsAdds(Typed(text, props, ids));
    case Remove(n) => CountsRepeat(Drop, n);
  }

  lemma {:induction false} RenderConcat(x: seq<Atom>, y: seq<Atom>, k: nat)
    ensures Render(x + y, k) == Render(x, k) + Render(y, k + Base(x))
  {
    if x == [] {
      assert x + y == y;
    } else {
      assert (x + y)[0] == x[0] && (x + y)[1..] == x[1..] + y;
      RenderConcat(x[1..], y, if x[0].Add? then k else k + 1);
    }
  }

  lemma {:induction false} ApplyConcat(x: seq<Atom>, y: seq<Atom>, doc: Doc)
    requires Base(x) + Base(y) == |doc|
    ensures Base(x + y) == |doc|
    ensures ApplyAtoms(x + y, doc) == ApplyAtoms(x, doc[..Base(x)]) + ApplyAtoms(y, doc[Base(x)..])
    decreases |x|, 0
  {
    CountsConcat(x, y);
    if x == [] {
      assert x + y == y && doc[0..] == doc;
    } else {
      ApplyConcatStep(x[0], x[1..], y, doc);
      assert [x[0]] + x[1..] == x;
    }
  }

  lemma {:induction false} ApplyConcatStep(a: Atom, x: seq<Atom>, y: seq<Atom>, doc: Doc)
    requires Base([a] + x) + Base(y) == |doc|
    ensures Base([a] + x + y) == |doc|
    ensures var k := Base([a] + x);
      ApplyAtoms([a] + x + y, doc) == ApplyAtoms([a] + x, doc[..k]) + ApplyAtoms(y, doc[k..])
    decreases |x|, 1
  {
    hide ApplyAtoms, Target;
    var k := Base([a] + x);
    BaseCons(a, x);
    var tail := if a.Add? then doc else doc[1..];
    ApplyConcat(x, y, tail);
    ApplyCons(a, x + y, doc);
    ApplyCons(a, x, doc[..k]);
    assert [a] + x + y == [a] + (x + y);
    assert tail[Base(x)..] == doc[k..];
    assert !a.Add? ==> tail[..Base(x)] == doc[..k][1..];
  }

  lemma BaseCons(a: Atom, x: seq<Atom>)
    ensures Base([a] + x) == Base(x) + if a.Add? then 0 else 1
  {
    assert ([a] + x)[1..] == x;
  }

  lemma ApplyCons(a: Atom, x: seq<Atom>, doc: Doc)
    requires Base(x) + (if a.Add? then 0 else 1) == |doc|
    ensures Base([a] + x) == |doc|
    ensures a.Keep? ==> ApplyAtoms([a] + x, doc) == [Mark(doc[0], a.directive)] + ApplyAtoms(x, doc[1..])
    ensures a.Drop? ==> ApplyAtoms([a] + x, doc) == ApplyAtoms(x, doc[1..])
    ensures a.Add? ==> ApplyAtoms([a] + x, doc) == [a.ch] + ApplyAtoms(x, doc)
  {
    assert ([a] + x)[1..] == x;
  }

  function Realize(o: Out, doc: Doc, k: nat): DocChar {
    match o
    case New(ch) => ch
    case Copy(i, d) => if k <= i < k + |doc| then Mark(doc[i - k], d) else DocChar(' ', None, {})
  }

  /** The rendering determines the result on every document. */
  lemma {:induction false} ApplyIsRender(x: seq<Atom>, doc: Doc, k: nat)
    requires Base(x) == |doc|
    ensures forall j :: 0 <= j < Target(x) ==>
      Render(x, k)[j].New? || k <= Render(x, k)[j].index < k + |doc|
    ensures forall j :: 0 <= j < Target(x) ==> ApplyAtoms(x, doc)[j] == Realize(Render(x, k)[j], doc, k)
  {
    if x != [] {
      var rest := x[1..];
      match x[0]
      case Keep(d) =>
        ApplyIsRender(rest, doc[1..], k + 1);
      case Drop =>
        ApplyIsRender(rest, doc[1..], k + 1);
      case Add(ch) =>
        ApplyIsRender(rest, doc, k);
    }
  }

  /** Two operations with the same effect give the same document, whatever it is applied to. */
  lemma SameEffectSameResult(x: seq<Atom>, y: seq<Atom>, doc: Doc)
    requires SameEffect(x, y) && Base(x) == |doc|
    ensures ApplyAtoms(x, doc) == ApplyAtoms(y, doc)
  {
    ApplyIsRender(x, doc, 0);
    ApplyIsRender(y, doc, 0);
  }

  lemma SameEffectConcat(x: seq<Atom>, y: seq<Atom>, z: seq<Atom>)
    requires SameEffect(x, y)
    ensures SameEffect(x + z, y + z)
  {
    CountsConcat(x, z);
    CountsConcat(y, z);
    RenderConcat(x, z, 0);
    RenderConcat(y, z, 0);
  }

  lemma SameEffectTrans(x: seq<Atom>, y: seq<Atom>, z: seq<Atom>)
    requires SameEffect(x, y) && SameEffect(y, z)
    ensures SameEffect(x, z)
  {
  }

  lemma {:induction false} RenderDrops(n: nat, k: nat)
    ensures Render(Repeat(Drop, n), k) == []
  {
    CountsRepeat(Drop, n);
    assert |Render(Repeat(Drop, n), k)| == 0;
  }

  lemma {:induction false} RenderAdds(text: Doc, k: nat)
    ensures |Render(Adds(text), k)| == |text|
    ensures forall j :: 0 <= j < |text| ==> Render(Adds(text), k)[j] == New(text[j])
  {
    CountsAdds(text);
    if text != [] {
      assert Adds(text)[1..] == Adds(text[1..]);
      RenderAdds(text[1..], k);
      assert Render(Adds(text), k) == [New(text[0])] + Render(Adds(text[1..]), k);
    }
  }

  lemma DropsAddsRender(text: Doc, n: nat, k: nat)
    ensures Base(Repeat(Drop, n) + Adds(text)) == Base(Adds(text) + Repeat(Drop, n))
    ensures Render(Repeat(Drop, n) + Adds(text), k) == Render(Adds(text) + Repeat(Drop, n), k)
  {
    var d, a := Repeat(Drop, n), Adds(text);
    CountsRepeat(Drop, n);
    CountsAdds(text);
    CountsConcat(d, a);
    CountsConcat(a, d);
    RenderConcat(d, a, k);
    RenderConcat(a, d, k);
    RenderDrops(n, k);
    RenderAdds(text, k);
    RenderAdds(text, k + n);
    assert Render(a, k) == Render(a, k + n);
  }

  /** Inserting before or after a removal at the same place makes no difference. */
  lemma InsertRemoveCommute(x: seq<Atom>, text: Doc, n: nat)
    ensures SameEffect(x + Repeat(Drop, n) + Adds(text), x + Adds(text) + Repeat(Drop, n))
  {
    var d, a := Repeat(Drop, n), Adds(text);
    DropsAddsRender(text, n, Base(x));
    CountsConcat(x, d + a);
    CountsConcat(x, a + d);
    RenderConcat(x, d + a, 0);
    RenderConcat(x, a + d, 0);
    assert x + d + a == x + (d + a) && x + a + d == x + (a + d);
  }
}
