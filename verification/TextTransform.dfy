/**
  `TextOperation.transform` and `compose` (overleaf-editor-core:
  text_operation.js lines 481-792).

  Both are loops over two lists of operations that split an operation whenever
  the other one is shorter. Their meaning is given by two simple recursions over
  atoms, and the properties are proved there.
*/
module TextTransform {
  import opened Common
  import opened TextModel
  import opened TextOperations

  // ----- transform on atoms -----

  function AtomPair(a: Atom, b: Atom): (r: (seq<Atom>, seq<Atom>))
    requires !a.Add? && !b.Add?
    ensures |r.0| <= 1 && |r.1| <= 1
    ensures Base(r.0) == (if b.Drop? then 0 else 1) && Base(r.1) == (if a.Drop? then 0 else 1)
    ensures Target(r.0) == Target(r.1) == if a.Drop? || b.Drop? then 0 else 1
  {
    match (a, b)
    case (Keep(d), Keep(e)) => if d.Leave? then ([Keep(Leave)], [Keep(e)]) else ([Keep(d)], [Keep(Leave)])
    case (Drop, Drop) => ([], [])
    case (Drop, Keep(_)) => ([Drop], [])
    case (Keep(_), Drop) => ([], [Drop])
  }

  function TransformAtoms(a: seq<Atom>, b: seq<Atom>): (r: (seq<Atom>, seq<Atom>))
    requires Base(a) == Base(b)
    decreases |a| + |b|
  {
    if a == [] && b == [] then ([], [])
    else if a != [] && a[0].Add? then
      var r := TransformAtoms(a[1..], b);
      ([a[0]] + r.0, [Keep(Leave)] + r.1)
    else if b != [] && b[0].Add? then
      var r := TransformAtoms(a, b[1..]);
      ([Keep(Leave)] + r.0, [b[0]] + r.1)
    else
      var p := AtomPair(a[0], b[0]);
      var r := TransformAtoms(a[1..], b[1..]);
      (p.0 + r.0, p.1 + r.1)
  }

  /** The transformed operations start where the other one ends. */
  lemma {:induction false} TransformAtomsCounts(a: seq<Atom>, b: seq<Atom>)
    requires Base(a) == Base(b)
    ensures var r := TransformAtoms(a, b);
      Base(r.0) == Target(b) && Base(r.1) == Target(a) && Target(r.0) == Target(r.1)
    decreases |a| + |b|
  {
    if a == [] && b == [] {
    } else if a != [] && a[0].Add? {
      TransformAtomsCounts(a[1..], b);
    } else if b != [] && b[0].Add? {
      TransformAtomsCounts(a, b[1..]);
    } else {
      TransformAtomsCounts(a[1..], b[1..]);
      var r := TransformAtoms(a[1..], b[1..]);
      var p := AtomPair(a[0], b[0]);
      CountsConcat(p.0, r.0);
      CountsConcat(p.1, r.1);
    }
  }

  /** The one-step diamond, on atoms. */
  lemma {:induction false} DiamondAtoms(a: seq<Atom>, b: seq<Atom>, doc: Doc)
    requires Base(a) == Base(b) == |doc|
    ensures var r := TransformAtoms(a, b);
      && Base(r.0) == Target(b) && Base(r.1) == Target(a)
      && ApplyAtoms(r.1, ApplyAtoms(a, doc)) == ApplyAtoms(r.0, ApplyAtoms(b, doc))
    decreases |a| + |b|
  {
    TransformAtomsCounts(a, b);
    if a == [] && b == [] {
    } else if a != [] && a[0].Add? {
      DiamondAtoms(a[1..], b, doc);
    } else if b != [] && b[0].Add? {
      DiamondAtoms(a, b[1..], doc);
    } else {
      DiamondAtoms(a[1..], b[1..], doc[1..]);
      DiamondStep(a[0], b[0], TransformAtoms(a[1..], b[1..]), doc[0],
        ApplyAtoms(a[1..], doc[1..]), ApplyAtoms(b[1..], doc[1..]));
    }
  }

  lemma KeepHead(d: Directive, x: seq<Atom>, ch: DocChar, doc: Doc)
    requires Base(x) == |doc|
    ensures Base([Keep(d)] + x) == |doc| + 1
    ensures ApplyAtoms([Keep(d)] + x, [ch] + doc) == [Mark(ch, d)] + ApplyAtoms(x, doc)
  {
    assert ([Keep(d)] + x)[1..] == x;
    assert ([ch] + doc)[1..] == doc;
  }

  lemma DropHead(x: seq<Atom>, ch: DocChar, doc: Doc)
    requires Base(x) == |doc|
    ensures Base([Drop] + x) == |doc| + 1
    ensures ApplyAtoms([Drop] + x, [ch] + doc) == ApplyAtoms(x, doc)
  {
    assert ([Drop] + x)[1..] == x;
    assert ([ch] + doc)[1..] == doc;
  }

  lemma DiamondStep(p: Atom, q: Atom, r: (seq<Atom>, seq<Atom>), ch: DocChar, da: Doc, db: Doc)
    requires !p.Add? && !q.Add?
    requires Base(r.1) == |da| && Base(r.0) == |db|
    requires ApplyAtoms(r.1, da) == ApplyAtoms(r.0, db)
    ensures var s := AtomPair(p, q);
      var ea := if p.Drop? then da else [Mark(ch, p.directive)] + da;
      var eb := if q.Drop? then db else [Mark(ch, q.directive)] + db;
      && Base(s.1 + r.1) == |ea| && Base(s.0 + r.0) == |eb|
      && ApplyAtoms(s.1 + r.1, ea) == ApplyAtoms(s.0 + r.0, eb)
  {
    match (p, q) {
      case (Keep(d), Keep(e)) =>
        var s := AtomPair(p, q);
        KeepHead(s.1[0].directive, r.1, Mark(ch, d), da);
        KeepHead(s.0[0].directive, r.0, Mark(ch, e), db);
      case (Drop, Drop) =>
        assert [] + r.0 == r.0 && [] + r.1 == r.1;
      case (Drop, Keep(e)) =>
        DropHead(r.0, Mark(ch, e), db);
        assert [] + r.1 == r.1;
      case (Keep(d), Drop) =>
        DropHead(r.1, Mark(ch, d), da);
        assert [] + r.0 == r.0;
    }
  }

  // ----- runs: what one step of the loop over operations does to the atoms -----

  lemma AddsCons(text: Doc, a: seq<Atom>)
    requires text != []
    ensures Adds(text) + a == [Add(text[0])] + (Adds(text[1..]) + a)
  {
  }

  lemma TransformAddLeft(u: Atom, a: seq<Atom>, b: seq<Atom>)
    requires u.Add? && Base(a) == Base(b)
    ensures Base([u] + a) == Base(b)
    ensures var r := TransformAtoms(a, b); TransformAtoms([u] + a, b) == ([u] + r.0, [Keep(Leave)] + r.1)
  {
    assert ([u] + a)[1..] == a;
  }

  lemma TransformAddRight(u: Atom, a: seq<Atom>, b: seq<Atom>)
    requires u.Add? && Base(a) == Base(b) && (a == [] || !a[0].Add?)
    ensures Base([u] + b) == Base(a)
    ensures var r := TransformAtoms(a, b); TransformAtoms(a, [u] + b) == ([Keep(Leave)] + r.0, [u] + r.1)
  {
    assert ([u] + b)[1..] == b;
  }

  lemma {:induction false} TransformRunLeft(text: Doc, a: seq<Atom>, b: seq<Atom>)
    requires Base(a) == Base(b)
    ensures Base(Adds(text) + a) == Base(b)
    ensures var r := TransformAtoms(a, b);
      TransformAtoms(Adds(text) + a, b) == (Adds(text) + r.0, Repeat(Keep(Leave), |text|) + r.1)
  {
    CountsAdds(text);
    CountsConcat(Adds(text), a);
    var r := TransformAtoms(a, b);
    if text == [] {
      assert Adds(text) + a == a && Adds(text) + r.0 == r.0 && Repeat(Keep(Leave), 0) + r.1 == r.1;
    } else {
      hide Base, TransformAtoms;
      TransformRunLeft(text[1..], a, b);
      TransformAddLeft(Add(text[0]), Adds(text[1..]) + a, b);
      AddsCons(text, a);
      AddsCons(text, r.0);
      RepeatCons(Keep(Leave), |text|, r.1);
    }
  }

  lemma {:induction false} TransformRunRight(text: Doc, a: seq<Atom>, b: seq<Atom>)
    requires Base(a) == Base(b) && (a == [] || !a[0].Add?)
    ensures Base(Adds(text) + b) == Base(a)
    ensures var r := TransformAtoms(a, b);
      TransformAtoms(a, Adds(text) + b) == (Repeat(Keep(Leave), |text|) + r.0, Adds(text) + r.1)
  {
    CountsAdds(text);
    CountsConcat(Adds(text), b);
    var r := TransformAtoms(a, b);
    if text == [] {
      assert Adds(text) + b == b && Adds(text) + r.1 == r.1 && Repeat(Keep(Leave), 0) + r.0 == r.0;
    } else {
      hide Base, TransformAtoms;
      TransformRunRight(text[1..], a, b);
      TransformAddRight(Add(text[0]), a, Adds(text[1..]) + b);
      AddsCons(text, b);
      AddsCons(text, r.1);
      RepeatCons(Keep(Leave), |text|, r.0);
    }
  }

  function Times(x: seq<Atom>, n: nat): seq<Atom>
    requires |x| <= 1
  {
    if x == [] then [] else Repeat(x[0], n)
  }

  lemma TimesStep(x: seq<Atom>, n: nat, rest: seq<Atom>)
    requires |x| <= 1 && n > 0
    ensures Times(x, n) + rest == x + (Times(x, n - 1) + rest)
  {
  }

  lemma RepeatCons(p: Atom, n: nat, a: seq<Atom>)
    requires n > 0
    ensures Repeat(p, n) + a == [p] + (Repeat(p, n - 1) + a)
  {
  }

  lemma RepeatBase(p: Atom, n: nat, a: seq<Atom>)
    requires !p.Add?
    ensures Base(Repeat(p, n) + a) == n + Base(a)
  {
    CountsRepeat(p, n);
    CountsConcat(Repeat(p, n), a);
  }

  lemma TransformStep(p: Atom, q: Atom, a: seq<Atom>, b: seq<Atom>)
    requires Base(a) == Base(b) && !p.Add? && !q.Add?
    ensures Base([p] + a) == Base([q] + b)
    ensures var r := TransformAtoms(a, b);
      TransformAtoms([p] + a, [q] + b) == (AtomPair(p, q).0 + r.0, AtomPair(p, q).1 + r.1)
  {
    assert ([p] + a)[1..] == a && ([q] + b)[1..] == b;
  }

  lemma {:induction false} TransformRunBoth(p: Atom, q: Atom, n: nat, a: seq<Atom>, b: seq<Atom>)
    requires Base(a) == Base(b) && !p.Add? && !q.Add?
    ensures Base(Repeat(p, n) + a) == Base(Repeat(q, n) + b)
    ensures var r := TransformAtoms(a, b);
      TransformAtoms(Repeat(p, n) + a, Repeat(q, n) + b)
        == (Times(AtomPair(p, q).0, n) + r.0, Times(AtomPair(p, q).1, n) + r.1)
  {
    RepeatBase(p, n, a);
    RepeatBase(q, n, b);
    var r := TransformAtoms(a, b);
    var x, y := AtomPair(p, q).0, AtomPair(p, q).1;
    if n == 0 {
      assert Repeat(p, n) + a == a && Repeat(q, n) + b == b;
      assert Times(x, n) + r.0 == r.0 && Times(y, n) + r.1 == r.1;
    } else {
      TransformRunBoth(p, q, n - 1, a, b);
      TransformStep(p, q, Repeat(p, n - 1) + a, Repeat(q, n - 1) + b);
      RepeatCons(p, n, a);
      RepeatCons(q, n, b);
      TimesStep(x, n, r.0);
      TimesStep(y, n, r.1);
    }
  }

  // ----- transform on operations -----

  /** The list without the first n characters of its first operation. */
  function Advance(ops: seq<ScanOp>, n: nat): seq<ScanOp>
    requires ops != [] && n <= Width(ops[0])
  {
    if n == Width(ops[0]) then ops[1..]
    else match ops[0]
      case Retain(len, d) => [Retain(len - n, d)] + ops[1..]
      case Insert(text, props, ids) => [Insert(text[n..], props, ids)] + ops[1..]
      case Remove(len) => [Remove(len - n)] + ops[1..]
  }

  function Width(op: ScanOp): nat {
    if op.Insert? then |op.text| else op.len
  }

  function Size(ops: seq<ScanOp>): nat {
    if ops == [] then 0 else 1 + Span(ops[0]) + Size(ops[1..])
  }

  lemma AtomsHead(ops: seq<ScanOp>)
    requires ops != []
    ensures Atoms(ops) == Expand(ops[0]) + Atoms(ops[1..])
    ensures Base(Atoms(ops)) == Span(ops[0]) + Base(Atoms(ops[1..]))
  {
    CountsConcat(Expand(ops[0]), Atoms(ops[1..]));
    CountsExpand(ops[0]);
  }

  function Unit(op: ScanOp): Atom
    requires !op.Insert?
  {
    if op.Retain? then Keep(op.directive) else Drop
  }

  lemma ExpandUnit(op: ScanOp)
    requires !op.Insert?
    ensures Expand(op) == Repeat(Unit(op), op.len)
  {
  }

  lemma AtomsCons(op: ScanOp, rest: seq<ScanOp>)
    ensures Atoms([op] + rest) == Expand(op) + Atoms(rest)
  {
    assert ([op] + rest)[1..] == rest;
  }

  lemma RepeatSplitBefore(u: Atom, m: nat, n: nat, tail: seq<Atom>)
    requires m <= n
    ensures Repeat(u, n) + tail == Repeat(u, m) + (Repeat(u, n - m) + tail)
  {
  }

  function Shorter(op: ScanOp, n: nat): (r: ScanOp)
    requires !op.Insert? && n <= op.len
    ensures !r.Insert? && Unit(r) == Unit(op) && r.len == op.len - n
  {
    if op.Retain? then Retain(op.len - n, op.directive) else Remove(op.len - n)
  }

  lemma AdvanceIs(ops: seq<ScanOp>, n: nat)
    requires ops != [] && !ops[0].Insert? && n <= ops[0].len
    ensures n <= Width(ops[0])
    ensures Advance(ops, n) == if n == ops[0].len then ops[1..] else [Shorter(ops[0], n)] + ops[1..]
  {
  }

  lemma AdvanceAtoms(ops: seq<ScanOp>, n: nat)
    requires ops != [] && !ops[0].Insert? && n <= ops[0].len
    ensures Atoms(ops) == Repeat(Unit(ops[0]), n) + Atoms(Advance(ops, n))
  {
    AdvanceIs(ops, n);
    hide *;
    AtomsHead(ops);
    ExpandUnit(ops[0]);
    if n < ops[0].len {
      var rest := Shorter(ops[0], n);
      AtomsCons(rest, ops[1..]);
      ExpandUnit(rest);
      RepeatSplitBefore(Unit(ops[0]), n, ops[0].len, Atoms(ops[1..]));
    }
  }

  lemma AdvanceFacts(ops: seq<ScanOp>, n: nat)
    requires Proper(ops) && ops != [] && !ops[0].Insert? && 0 < n <= ops[0].len
    ensures Proper(Advance(ops, n)) && Size(Advance(ops, n)) < Size(ops)
    ensures Atoms(ops) == Repeat(Unit(ops[0]), n) + Atoms(Advance(ops, n))
    ensures Base(Atoms(ops)) == n + Base(Atoms(Advance(ops, n)))
  {
    AdvanceAtoms(ops, n);
    CountsRepeat(Unit(ops[0]), n);
    CountsConcat(Repeat(Unit(ops[0]), n), Atoms(Advance(ops, n)));
    assert n < ops[0].len ==> Advance(ops, n)[1..] == ops[1..];
  }

  /** Without an insert in front both operations move on by the shorter length, and still cover the same. */
  lemma BothMoveOn(s1: seq<ScanOp>, s2: seq<ScanOp>)
    requires Proper(s1) && Proper(s2) && Base(Atoms(s1)) == Base(Atoms(s2)) && (s1 != [] || s2 != [])
    requires (s1 == [] || !s1[0].Insert?) && (s2 == [] || !s2[0].Insert?)
    ensures s1 != [] && s2 != []
    ensures var n := Min(s1[0].len, s2[0].len);
      && 0 < n <= Width(s1[0]) && n <= Width(s2[0])
      && Proper(Advance(s1, n)) && Proper(Advance(s2, n))
      && Base(Atoms(Advance(s1, n))) == Base(Atoms(Advance(s2, n)))
      && Size(Advance(s1, n)) < Size(s1) && Size(Advance(s2, n)) < Size(s2)
  {
    Lockstep(s1, s2);
    var n := Min(s1[0].len, s2[0].len);
    AdvanceFacts(s1, n);
    AdvanceFacts(s2, n);
  }

  /** The loop of `transform`: what is left of both operations, and both results so far. */
  function TransformFrom(s1: seq<ScanOp>, s2: seq<ScanOp>, p1: seq<ScanOp>, p2: seq<ScanOp>): (seq<ScanOp>, seq<ScanOp>)
    requires Proper(s1) && Proper(s2) && Base(Atoms(s1)) == Base(Atoms(s2))
    decreases Size(s1) + Size(s2)
  {
    if s1 == [] && s2 == [] then (p1, p2)
    else if s1 != [] && s1[0].Insert? then
      AtomsHead(s1);
      TransformFrom(s1[1..], s2, Push(p1, s1[0]), PushRetain(p2, |s1[0].text|, Leave))
    else if s2 != [] && s2[0].Insert? then
      AtomsHead(s2);
      TransformFrom(s1, s2[1..], PushRetain(p1, |s2[0].text|, Leave), Push(p2, s2[0]))
    else
      BothMoveOn(s1, s2);
      var a, b := s1[0], s2[0];
      var n := Min(a.len, b.len);
      var t1, t2 := Advance(s1, n), Advance(s2, n);
      if a.Retain? && b.Retain? then
        TransformFrom(t1, t2,
          PushRetain(p1, n, a.directive),
          PushRetain(p2, n, if a.directive.Leave? then b.directive else Leave))
      else if a.Remove? && b.Remove? then TransformFrom(t1, t2, p1, p2)
      else if a.Remove? then TransformFrom(t1, t2, PushRemove(p1, n), p2)
      else TransformFrom(t1, t2, p1, PushRemove(p2, n))
  }

  /** The two cursors stay together: neither operation can be too short. */
  lemma Lockstep(s1: seq<ScanOp>, s2: seq<ScanOp>)
    requires Proper(s1) && Proper(s2) && Base(Atoms(s1)) == Base(Atoms(s2))
    requires s1 != [] || s2 != []
    requires s1 == [] || !s1[0].Insert?
    requires s2 == [] || !s2[0].Insert?
    ensures s1 != [] && s2 != []
  {
    if s1 != [] { AtomsHead(s1); }
    if s2 != [] { AtomsHead(s2); }
  }

  function TransformOps(a: seq<ScanOp>, b: seq<ScanOp>): (seq<ScanOp>, seq<ScanOp>)
    requires Proper(a) && Proper(b) && Base(Atoms(a)) == Base(Atoms(b))
  {
    TransformFrom(a, b, [], [])
  }

  lemma PushThen(ops: seq<ScanOp>, op: ScanOp, x: seq<Atom>, goal: seq<Atom>)
    requires !Loses(ops, op)
    requires SameEffect(goal, Atoms(Push(ops, op)) + x)
    ensures SameEffect(goal, Atoms(ops) + (Expand(op) + x))
  {
    hide *;
    PushEffect(ops, op);
    var a, b := Atoms(Push(ops, op)), Atoms(ops) + Expand(op);
    SameEffectConcat(a, b, x);
    SameEffectTrans(goal, a + x, b + x);
    Reassociate(Atoms(ops), Expand(op), x);
  }

  /** Neither what is left nor what is built repeats an id in an insert. */
  predicate AllDistinct(s1: seq<ScanOp>, s2: seq<ScanOp>, p1: seq<ScanOp>, p2: seq<ScanOp>) {
    DistinctIds(s1) && DistinctIds(s2) && DistinctIds(p1) && DistinctIds(p2)
  }

  /** The loop over operations does exactly what the recursion over atoms says. */
  lemma {:induction false} TransformRefines(s1: seq<ScanOp>, s2: seq<ScanOp>, p1: seq<ScanOp>, p2: seq<ScanOp>)
    requires Proper(s1) && Proper(s2) && Base(Atoms(s1)) == Base(Atoms(s2)) && AllDistinct(s1, s2, p1, p2)
    ensures var r := TransformFrom(s1, s2, p1, p2);
      var x := TransformAtoms(Atoms(s1), Atoms(s2));
      SameEffect(Atoms(r.0), Atoms(p1) + x.0) && SameEffect(Atoms(r.1), Atoms(p2) + x.1)
    decreases Size(s1) + Size(s2)
  {
    if s1 == [] && s2 == [] {
      assert Atoms(p1) + [] == Atoms(p1) && Atoms(p2) + [] == Atoms(p2);
    } else if s1 != [] && s1[0].Insert? {
      TransformInsertLeft(s1, s2, p1, p2);
    } else if s2 != [] && s2[0].Insert? {
      TransformInsertRight(s1, s2, p1, p2);
    } else {
      Lockstep(s1, s2);
      TransformBase(s1, s2, p1, p2);
    }
  }

  lemma {:induction false} TransformInsertLeft(s1: seq<ScanOp>, s2: seq<ScanOp>, p1: seq<ScanOp>, p2: seq<ScanOp>)
    requires Proper(s1) && Proper(s2) && Base(Atoms(s1)) == Base(Atoms(s2)) && AllDistinct(s1, s2, p1, p2)
    requires s1 != [] && s1[0].Insert?
    ensures var r := TransformFrom(s1, s2, p1, p2);
      var x := TransformAtoms(Atoms(s1), Atoms(s2));
      SameEffect(Atoms(r.0), Atoms(p1) + x.0) && SameEffect(Atoms(r.1), Atoms(p2) + x.1)
    decreases Size(s1) + Size(s2), 0
  {
    var op := s1[0];
    var text := Typed(op.text, op.props, op.ids);
    AtomsHead(s1);
    var keep := Retain(|op.text|, Leave);
    PushDistinct(p1, op);
    PushDistinct(p2, keep);
    TransformRefines(s1[1..], s2, Push(p1, op), Push(p2, keep));
    TransformRunLeft(text, Atoms(s1[1..]), Atoms(s2));
    var x := TransformAtoms(Atoms(s1[1..]), Atoms(s2));
    var r := TransformFrom(s1, s2, p1, p2);
    PushThen(p1, op, x.0, Atoms(r.0));
    PushThen(p2, keep, x.1, Atoms(r.1));
  }

  lemma {:induction false} TransformInsertRight(s1: seq<ScanOp>, s2: seq<ScanOp>, p1: seq<ScanOp>, p2: seq<ScanOp>)
    requires Proper(s1) && Proper(s2) && Base(Atoms(s1)) == Base(Atoms(s2)) && AllDistinct(s1, s2, p1, p2)
    requires s1 == [] || !s1[0].Insert?
    requires s2 != [] && s2[0].Insert?
    ensures var r := TransformFrom(s1, s2, p1, p2);
      var x := TransformAtoms(Atoms(s1), Atoms(s2));
      SameEffect(Atoms(r.0), Atoms(p1) + x.0) && SameEffect(Atoms(r.1), Atoms(p2) + x.1)
    decreases Size(s1) + Size(s2), 0
  {
    var op := s2[0];
    var text := Typed(op.text, op.props, op.ids);
    AtomsHead(s2);
    if s1 != [] { AtomsHead(s1); }
    var keep := Retain(|op.text|, Leave);
    PushDistinct(p1, keep);
    PushDistinct(p2, op);
    TransformRefines(s1, s2[1..], Push(p1, keep), Push(p2, op));
    TransformRunRight(text, Atoms(s1), Atoms(s2[1..]));
    var x := TransformAtoms(Atoms(s1), Atoms(s2[1..]));
    var r := TransformFrom(s1, s2, p1, p2);
    PushThen(p1, keep, x.0, Atoms(r.0));
    PushThen(p2, op, x.1, Atoms(r.1));
  }

  /** The builder calls of one step, as a list of operations pushed in order. */
  function Emit(x: seq<Atom>, n: nat): Option<ScanOp>
    requires |x| <= 1
  {
    if x == [] then None
    else match x[0]
      case Keep(d) => Some(Retain(n, d))
      case Drop => Some(Remove(n))
      case Add(_) => None
  }

  function PushOption(ops: seq<ScanOp>, op: Option<ScanOp>): seq<ScanOp> {
    if op.Some? then Push(ops, op.value) else ops
  }

  lemma EmitDistinct(ops: seq<ScanOp>, x: seq<Atom>, n: nat)
    requires |x| <= 1 && (x == [] || !x[0].Add?) && DistinctIds(ops)
    ensures DistinctIds(PushOption(ops, Emit(x, n)))
  {
    if x != [] { PushDistinct(ops, Emit(x, n).value); }
  }

  lemma PushEmit(ops: seq<ScanOp>, x: seq<Atom>, n: nat, rest: seq<Atom>, goal: seq<Atom>)
    requires |x| <= 1 && (x == [] || !x[0].Add?)
    requires SameEffect(goal, Atoms(PushOption(ops, Emit(x, n))) + rest)
    ensures SameEffect(goal, Atoms(ops) + (Times(x, n) + rest))
  {
    if x == [] {
      assert Times(x, n) + rest == rest;
    } else {
      PushThen(ops, Emit(x, n).value, rest, goal);
    }
  }

  lemma {:induction false} TransformFromBase(s1: seq<ScanOp>, s2: seq<ScanOp>, p1: seq<ScanOp>, p2: seq<ScanOp>)
    requires Proper(s1) && Proper(s2) && Base(Atoms(s1)) == Base(Atoms(s2))
    requires s1 != [] && !s1[0].Insert? && s2 != [] && !s2[0].Insert?
    ensures var n := Min(s1[0].len, s2[0].len);
      var pair := AtomPair(Unit(s1[0]), Unit(s2[0]));
      && Proper(Advance(s1, n)) && Proper(Advance(s2, n))
      && Base(Atoms(Advance(s1, n))) == Base(Atoms(Advance(s2, n)))
      && TransformFrom(s1, s2, p1, p2) == TransformFrom(Advance(s1, n), Advance(s2, n),
           PushOption(p1, Emit(pair.0, n)), PushOption(p2, Emit(pair.1, n)))
  {
    var n := Min(s1[0].len, s2[0].len);
    AdvanceFacts(s1, n);
    AdvanceFacts(s2, n);
  }

  /** The loop is on its way from these lists and these results to this outcome. */
  ghost predicate Heading(s1: seq<ScanOp>, s2: seq<ScanOp>, p1: seq<ScanOp>, p2: seq<ScanOp>,
                          goal: (seq<ScanOp>, seq<ScanOp>)) {
    && Proper(s1) && Proper(s2)
    && Base(Atoms(s1)) == Base(Atoms(s2))
    && TransformFrom(s1, s2, p1, p2) == goal
  }

  lemma HeadingInsertLeft(s1: seq<ScanOp>, s2: seq<ScanOp>, p1: seq<ScanOp>, p2: seq<ScanOp>,
                          goal: (seq<ScanOp>, seq<ScanOp>))
    requires Heading(s1, s2, p1, p2, goal) && s1 != [] && s1[0].Insert?
    ensures Heading(s1[1..], s2, Push(p1, s1[0]), PushRetain(p2, |s1[0].text|, Leave), goal)
    ensures Size(s1[1..]) < Size(s1)
  {
    AtomsHead(s1);
  }

  lemma HeadingInsertRight(s1: seq<ScanOp>, s2: seq<ScanOp>, p1: seq<ScanOp>, p2: seq<ScanOp>,
                           goal: (seq<ScanOp>, seq<ScanOp>))
    requires Heading(s1, s2, p1, p2, goal) && (s1 == [] || !s1[0].Insert?) && s2 != [] && s2[0].Insert?
    ensures Heading(s1, s2[1..], PushRetain(p1, |s2[0].text|, Leave), Push(p2, s2[0]), goal)
    ensures Size(s2[1..]) < Size(s2)
  {
    AtomsHead(s2);
  }

  lemma HeadingBase(s1: seq<ScanOp>, s2: seq<ScanOp>, p1: seq<ScanOp>, p2: seq<ScanOp>,
                    goal: (seq<ScanOp>, seq<ScanOp>))
    requires Heading(s1, s2, p1, p2, goal) && (s1 != [] || s2 != [])
    requires s1 == [] || !s1[0].Insert?
    requires s2 == [] || !s2[0].Insert?
    ensures s1 != [] && s2 != []
    ensures var n := Min(s1[0].len, s2[0].len);
      var pair := AtomPair(Unit(s1[0]), Unit(s2[0]));
      && Size(Advance(s1, n)) < Size(s1) && Size(Advance(s2, n)) < Size(s2)
      && Heading(Advance(s1, n), Advance(s2, n),
           PushOption(p1, Emit(pair.0, n)), PushOption(p2, Emit(pair.1, n)), goal)
  {
    Lockstep(s1, s2);
    var n := Min(s1[0].len, s2[0].len);
    AdvanceFacts(s1, n);
    AdvanceFacts(s2, n);
    TransformFromBase(s1, s2, p1, p2);
  }

  lemma HeadingStart(a: seq<ScanOp>, b: seq<ScanOp>)
    requires Proper(a) && Proper(b) && Base(Atoms(a)) == Base(Atoms(b))
    ensures Heading(a, b, [], [], TransformOps(a, b))
  {
  }

  lemma HeadingEnd(p1: seq<ScanOp>, p2: seq<ScanOp>, goal: (seq<ScanOp>, seq<ScanOp>))
    requires Heading([], [], p1, p2, goal)
    ensures goal == (p1, p2)
  {
  }

  lemma HeadsAreLong(s1: seq<ScanOp>, s2: seq<ScanOp>)
    requires Proper(s1) && Proper(s2) && s1 != [] && !s1[0].Insert? && s2 != [] && !s2[0].Insert?
    ensures 0 < s1[0].len && 0 < s2[0].len
  {
  }

  lemma HeadsMeet(a: ScanOp, b: ScanOp)
    requires !a.Insert? && !b.Insert? && 0 < a.len && 0 < b.len
    ensures 0 < Min(a.len, b.len) <= a.len && Min(a.len, b.len) <= b.len
    ensures Width(a) == a.len && Width(b) == b.len && !Unit(a).Add? && !Unit(b).Add?
    ensures var pair := AtomPair(Unit(a), Unit(b));
      (pair.0 == [] || !pair.0[0].Add?) && (pair.1 == [] || !pair.1[0].Add?)
  {
  }

  lemma BaseDistinct(s1: seq<ScanOp>, s2: seq<ScanOp>, p1: seq<ScanOp>, p2: seq<ScanOp>)
    requires AllDistinct(s1, s2, p1, p2) && s1 != [] && !s1[0].Insert? && s2 != [] && !s2[0].Insert?
    ensures var n := Min(s1[0].len, s2[0].len);
      var pair := AtomPair(Unit(s1[0]), Unit(s2[0]));
      AllDistinct(Advance(s1, n), Advance(s2, n), PushOption(p1, Emit(pair.0, n)), PushOption(p2, Emit(pair.1, n)))
  {
    hide NoRepeat;
    var n := Min(s1[0].len, s2[0].len);
    var pair := AtomPair(Unit(s1[0]), Unit(s2[0]));
    EmitDistinct(p1, pair.0, n);
    EmitDistinct(p2, pair.1, n);
  }

  lemma {:induction false} TransformBase(s1: seq<ScanOp>, s2: seq<ScanOp>, p1: seq<ScanOp>, p2: seq<ScanOp>)
    requires Proper(s1) && Proper(s2) && Base(Atoms(s1)) == Base(Atoms(s2)) && AllDistinct(s1, s2, p1, p2)
    requires s1 != [] && !s1[0].Insert? && s2 != [] && !s2[0].Insert?
    ensures var r := TransformFrom(s1, s2, p1, p2);
      var x := TransformAtoms(Atoms(s1), Atoms(s2));
      SameEffect(Atoms(r.0), Atoms(p1) + x.0) && SameEffect(Atoms(r.1), Atoms(p2) + x.1)
    decreases Size(s1) + Size(s2), 0
  {
    hide *;
    var a, b := s1[0], s2[0];
    var n := Min(a.len, b.len);
    HeadsAreLong(s1, s2);
    HeadsMeet(a, b);
    AdvanceFacts(s1, n);
    AdvanceFacts(s2, n);
    var t1, t2 := Advance(s1, n), Advance(s2, n);
    var pair := AtomPair(Unit(a), Unit(b));
    var q1, q2 := PushOption(p1, Emit(pair.0, n)), PushOption(p2, Emit(pair.1, n));
    BaseDistinct(s1, s2, p1, p2);
    TransformRefines(t1, t2, q1, q2);
    TransformRunBoth(Unit(a), Unit(b), n, Atoms(t1), Atoms(t2));
    TransformFromBase(s1, s2, p1, p2);
    var r := TransformFrom(t1, t2, q1, q2);
    var x := TransformAtoms(Atoms(t1), Atoms(t2));
    PushEmit(p1, pair.0, n, x.0, Atoms(r.0));
    PushEmit(p2, pair.1, n, x.1, Atoms(r.1));
  }

  lemma EmitCanonical(ops: seq<ScanOp>, x: seq<Atom>, n: nat)
    requires |x| <= 1 && (x == [] || !x[0].Add?) && Canonical(ops)
    ensures Canonical(PushOption(ops, Emit(x, n)))
  {
    if x != [] { PushCanonical(ops, Emit(x, n).value); }
  }

  lemma {:induction false} TransformCanonical(s1: seq<ScanOp>, s2: seq<ScanOp>, p1: seq<ScanOp>, p2: seq<ScanOp>,
                                              goal: (seq<ScanOp>, seq<ScanOp>))
    requires Heading(s1, s2, p1, p2, goal) && Canonical(p1) && Canonical(p2)
    ensures Canonical(goal.0) && Canonical(goal.1)
    decreases Size(s1) + Size(s2)
  {
    hide Heading, TransformFrom, Canonical, Size, PushOption, Emit, PushInsert, PushMerging;
    if s1 == [] && s2 == [] {
      HeadingEnd(p1, p2, goal);
    } else if s1 != [] && s1[0].Insert? {
      HeadingInsertLeft(s1, s2, p1, p2, goal);
      PushCanonical(p1, s1[0]);
      PushCanonical(p2, Retain(|s1[0].text|, Leave));
      TransformCanonical(s1[1..], s2, Push(p1, s1[0]), PushRetain(p2, |s1[0].text|, Leave), goal);
    } else if s2 != [] && s2[0].Insert? {
      HeadingInsertRight(s1, s2, p1, p2, goal);
      PushCanonical(p2, s2[0]);
      PushCanonical(p1, Retain(|s2[0].text|, Leave));
      TransformCanonical(s1, s2[1..], PushRetain(p1, |s2[0].text|, Leave), Push(p2, s2[0]), goal);
    } else {
      HeadingBase(s1, s2, p1, p2, goal);
      var n, pair := Min(s1[0].len, s2[0].len), AtomPair(Unit(s1[0]), Unit(s2[0]));
      EmitCanonical(p1, pair.0, n);
      EmitCanonical(p2, pair.1, n);
      TransformCanonical(Advance(s1, n), Advance(s2, n), PushOption(p1, Emit(pair.0, n)), PushOption(p2, Emit(pair.1, n)), goal);
    }
  }

  lemma {:induction false} TransformDistinct(s1: seq<ScanOp>, s2: seq<ScanOp>, p1: seq<ScanOp>, p2: seq<ScanOp>,
                                             goal: (seq<ScanOp>, seq<ScanOp>))
    requires Heading(s1, s2, p1, p2, goal) && AllDistinct(s1, s2, p1, p2)
    ensures DistinctIds(goal.0) && DistinctIds(goal.1)
    decreases Size(s1) + Size(s2)
  {
    hide Heading, TransformFrom, Size, PushOption, Emit, PushInsert, PushMerging, NoRepeat;
    if s1 == [] && s2 == [] {
      HeadingEnd(p1, p2, goal);
    } else if s1 != [] && s1[0].Insert? {
      HeadingInsertLeft(s1, s2, p1, p2, goal);
      PushDistinct(p1, s1[0]);
      PushDistinct(p2, Retain(|s1[0].text|, Leave));
      TransformDistinct(s1[1..], s2, Push(p1, s1[0]), PushRetain(p2, |s1[0].text|, Leave), goal);
    } else if s2 != [] && s2[0].Insert? {
      HeadingInsertRight(s1, s2, p1, p2, goal);
      PushDistinct(p2, s2[0]);
      PushDistinct(p1, Retain(|s2[0].text|, Leave));
      TransformDistinct(s1, s2[1..], PushRetain(p1, |s2[0].text|, Leave), Push(p2, s2[0]), goal);
    } else {
      HeadingBase(s1, s2, p1, p2, goal);
      var n, pair := Min(s1[0].len, s2[0].len), AtomPair(Unit(s1[0]), Unit(s2[0]));
      EmitDistinct(p1, pair.0, n);
      EmitDistinct(p2, pair.1, n);
      TransformDistinct(Advance(s1, n), Advance(s2, n), PushOption(p1, Emit(pair.0, n)), PushOption(p2, Emit(pair.1, n)), goal);
    }
  }

  /**
    The heart of operational transformation: for any two operations on the same
    document that repeat no comment id in an insert, applying the first and then
    the transformed second gives the same text, tracking and comment marks as the
    other way round.
  */
  lemma TransformDiamond(a: seq<ScanOp>, b: seq<ScanOp>, doc: Doc)
    requires Proper(a) && Proper(b) && Base(Atoms(a)) == Base(Atoms(b)) == |doc|
    requires DistinctIds(a) && DistinctIds(b)
    ensures var r := TransformOps(a, b);
      && Canonical(r.0) && Canonical(r.1) && DistinctIds(r.0) && DistinctIds(r.1)
      && Base(Atoms(r.0)) == Target(Atoms(b))
      && Base(Atoms(r.1)) == Target(Atoms(a))
      && ApplyOps(r.1, ApplyOps(a, doc)) == ApplyOps(r.0, ApplyOps(b, doc))
  {
    var r := TransformOps(a, b);
    var x := TransformAtoms(Atoms(a), Atoms(b));
    HeadingStart(a, b);
    TransformCanonical(a, b, [], [], r);
    TransformDistinct(a, b, [], [], r);
    TransformRefines(a, b, [], []);
    assert Atoms([]) + x.0 == x.0 && Atoms([]) + x.1 == x.1;
    DiamondAtoms(Atoms(a), Atoms(b), doc);
    SameEffectSameResult(Atoms(r.1), x.1, ApplyOps(a, doc));
    SameEffectSameResult(Atoms(r.0), x.0, ApplyOps(b, doc));
  }

  // ----- the loop of the source, over two mutable operations -----

  datatype Unprocessable = DifferentBaseLengths | TooShort | TooLongFirst

  /** `ops[i]`, or undefined past the end. */
  function At(ops: seq<ScanOp>, i: nat): Option<ScanOp> {
    if i < |ops| then Some(ops[i]) else None
  }

  /** What is left to process: the current operation and those from index i on. */
  function Left(cur: Option<ScanOp>, ops: seq<ScanOp>, i: nat): seq<ScanOp> {
    (if cur.Some? then [cur.value] else []) + (if i < |ops| then ops[i..] else [])
  }

  lemma LeftNext(cur: ScanOp, ops: seq<ScanOp>, i: nat)
    ensures Left(At(ops, i), ops, i + 1) == Left(Some(cur), ops, i)[1..]
  {
  }

  lemma LeftShorter(cur: ScanOp, ops: seq<ScanOp>, i: nat, n: nat)
    requires !cur.Insert? && n < cur.len
    ensures Left(Some(Shorter(cur, n)), ops, i) == Advance(Left(Some(cur), ops, i), n)
  {
  }

  /** One of the two lists after n characters of its current operation were used. */
  method Use(cur: ScanOp, ops: seq<ScanOp>, i: nat, n: nat) returns (next: Option<ScanOp>, j: nat)
    requires !cur.Insert? && n <= cur.len
    ensures Left(next, ops, j) == Advance(Left(Some(cur), ops, i), n)
    ensures next.None? ==> |ops| <= j
  {
    if n == cur.len {
      LeftNext(cur, ops, i);
      next, j := At(ops, i), i + 1;
    } else {
      LeftShorter(cur, ops, i, n);
      next, j := Some(Shorter(cur, n)), i;
    }
  }

  /** What both results receive when n characters of two base operations meet. */
  method EmitPair(a: ScanOp, b: ScanOp, n: nat, p1: TextOperation, p2: TextOperation)
    requires !a.Insert? && !b.Insert? && p1 != p2 && p1.Valid() && p2.Valid()
    modifies p1, p2
    ensures p1.Valid() && p2.Valid()
    ensures p1.ops == PushOption(old(p1.ops), Emit(AtomPair(Unit(a), Unit(b)).0, n))
    ensures p2.ops == PushOption(old(p2.ops), Emit(AtomPair(Unit(a), Unit(b)).1, n))
  {
    if a.Retain? && b.Retain? {
      p1.Retain(n, a.directive);
      p2.Retain(n, if a.directive.Leave? then b.directive else Leave);
    } else if a.Remove? && b.Remove? {
    } else if a.Remove? {
      p1.Remove(n);
    } else {
      p2.Remove(n);
    }
  }

  /** The branch of the loop for two base operations: use up the shorter one. */
  method BaseStep(a: ScanOp, ops1: seq<ScanOp>, i1: nat, p1: TextOperation,
                  b: ScanOp, ops2: seq<ScanOp>, i2: nat, p2: TextOperation,
                  ghost goal: (seq<ScanOp>, seq<ScanOp>))
    returns (c1: Option<ScanOp>, j1: nat, c2: Option<ScanOp>, j2: nat)
    requires !a.Insert? && !b.Insert? && p1 != p2 && p1.Valid() && p2.Valid()
    requires Heading(Left(Some(a), ops1, i1), Left(Some(b), ops2, i2), p1.ops, p2.ops, goal)
    modifies p1, p2
    ensures p1.Valid() && p2.Valid()
    ensures Heading(Left(c1, ops1, j1), Left(c2, ops2, j2), p1.ops, p2.ops, goal)
    ensures c1.None? ==> |ops1| <= j1
    ensures c2.None? ==> |ops2| <= j2
    ensures Size(Left(c1, ops1, j1)) < Size(Left(Some(a), ops1, i1))
    ensures Size(Left(c2, ops2, j2)) < Size(Left(Some(b), ops2, i2))
  {
    HeadingBase(Left(Some(a), ops1, i1), Left(Some(b), ops2, i2), p1.ops, p2.ops, goal);
    var n := Min(a.len, b.len);
    EmitPair(a, b, n, p1, p2);
    c1, j1 := Use(a, ops1, i1, n);
    c2, j2 := Use(b, ops2, i2, n);
  }

  /** The branch of the loop for an insert: copied to its own result, retained by the other. */
  method InsertStep(op: ScanOp, ops: seq<ScanOp>, i: nat, own: TextOperation, other: TextOperation)
    returns (next: Option<ScanOp>, j: nat)
    requires op.Insert? && own != other && own.Valid() && other.Valid()
    modifies own, other
    ensures own.Valid() && own.ops == Push(old(own.ops), op)
    ensures other.Valid() && other.ops == PushRetain(old(other.ops), |op.text|, Leave)
    ensures Left(next, ops, j) == Left(Some(op), ops, i)[1..]
    ensures next.None? ==> |ops| <= j
  {
    own.Insert(op.text, op.props, op.ids);
    other.Retain(|op.text|, Leave);
    LeftNext(op, ops, i);
    next, j := At(ops, i), i + 1;
  }

  /** Where the loop is: both cursors and both results, on their way to the outcome. */
  ghost predicate Running(c1: Option<ScanOp>, ops1: seq<ScanOp>, i1: nat, p1: TextOperation,
                          c2: Option<ScanOp>, ops2: seq<ScanOp>, i2: nat, p2: TextOperation,
                          goal: (seq<ScanOp>, seq<ScanOp>))
    reads p1, p2
  {
    && p1 != p2 && p1.Valid() && p2.Valid()
    && (c1.None? ==> |ops1| <= i1) && (c2.None? ==> |ops2| <= i2)
    && Heading(Left(c1, ops1, i1), Left(c2, ops2, i2), p1.ops, p2.ops, goal)
  }

  lemma RunningStarts(ops1: seq<ScanOp>, p1: TextOperation, ops2: seq<ScanOp>, p2: TextOperation)
    requires Proper(ops1) && Proper(ops2) && Base(Atoms(ops1)) == Base(Atoms(ops2))
    requires p1 != p2 && p1.Valid() && p2.Valid() && p1.ops == p2.ops == []
    ensures Running(At(ops1, 0), ops1, 1, p1, At(ops2, 0), ops2, 1, p2, TransformOps(ops1, ops2))
  {
    assert Left(At(ops1, 0), ops1, 1) == ops1 && Left(At(ops2, 0), ops2, 1) == ops2;
    HeadingStart(ops1, ops2);
  }

  lemma RunningEnds(ops1: seq<ScanOp>, i1: nat, p1: TextOperation, ops2: seq<ScanOp>, i2: nat, p2: TextOperation,
                    goal: (seq<ScanOp>, seq<ScanOp>))
    requires Running(None, ops1, i1, p1, None, ops2, i2, p2, goal)
    ensures p1.Valid() && p2.Valid() && goal == (p1.ops, p2.ops)
  {
    HeadingEnd(p1.ops, p2.ops, goal);
  }

  /** One pass of the loop; neither error of a list that is too short is ever reached. */
  method OnePass(c1: Option<ScanOp>, ops1: seq<ScanOp>, i1: nat, p1: TextOperation,
                 c2: Option<ScanOp>, ops2: seq<ScanOp>, i2: nat, p2: TextOperation,
                 ghost goal: (seq<ScanOp>, seq<ScanOp>))
    returns (error: Option<Unprocessable>, d1: Option<ScanOp>, j1: nat, d2: Option<ScanOp>, j2: nat)
    requires (c1.Some? || c2.Some?) && Running(c1, ops1, i1, p1, c2, ops2, i2, p2, goal)
    modifies p1, p2
    ensures error.None? && Running(d1, ops1, j1, p1, d2, ops2, j2, p2, goal)
    ensures Size(Left(d1, ops1, j1)) + Size(Left(d2, ops2, j2)) < Size(Left(c1, ops1, i1)) + Size(Left(c2, ops2, i2))
  {
    hide Heading, TransformFrom, Size, Push, PushMerging, PushInsert, Proper, Canonical, Atoms, Base;
    ghost var s1, s2 := Left(c1, ops1, i1), Left(c2, ops2, i2);
    error, d1, j1, d2, j2 := None, c1, i1, c2, i2;
    if c1.Some? && c1.value.Insert? {
      HeadingInsertLeft(s1, s2, p1.ops, p2.ops, goal);
      d1, j1 := InsertStep(c1.value, ops1, i1, p1, p2);
    } else if c2.Some? && c2.value.Insert? {
      HeadingInsertRight(s1, s2, p1.ops, p2.ops, goal);
      d2, j2 := InsertStep(c2.value, ops2, i2, p2, p1);
    } else {
      HeadingBase(s1, s2, p1.ops, p2.ops, goal);
      if c1.None? {
        return Some(TooShort), d1, j1, d2, j2;
      }
      if c2.None? {
        return Some(TooLongFirst), d1, j1, d2, j2;
      }
      d1, j1, d2, j2 := BaseStep(c1.value, ops1, i1, p1, c2.value, ops2, i2, p2, goal);
    }
  }

  /** The loop throws only on different base lengths; its other errors are unreachable. */
  method Transform(op1: TextOperation, op2: TextOperation)
    returns (r: Result<(TextOperation, TextOperation), Unprocessable>)
    requires op1.Valid() && op2.Valid()
    ensures op1.baseLength != op2.baseLength ==> r == Err(DifferentBaseLengths)
    ensures op1.baseLength == op2.baseLength ==>
      && r.Ok? && fresh(r.value.0) && fresh(r.value.1)
      && r.value.0.Valid() && r.value.1.Valid()
      && (r.value.0.ops, r.value.1.ops) == TransformOps(op1.ops, op2.ops)
  {
    if op1.baseLength != op2.baseLength {
      return Err(DifferentBaseLengths);
    }
    var p1 := new TextOperation();
    var p2 := new TextOperation();
    var ops1, ops2 := op1.ops, op2.ops;
    var c1, i1 := At(ops1, 0), 1;
    var c2, i2 := At(ops2, 0), 1;
    assert Proper(ops1) && Proper(ops2) && Base(Atoms(ops1)) == Base(Atoms(ops2));
    hide *;
    ghost var goal := TransformOps(ops1, ops2);
    RunningStarts(ops1, p1, ops2, p2);
    while c1.Some? || c2.Some?
      invariant fresh(p1) && fresh(p2) && Running(c1, ops1, i1, p1, c2, ops2, i2, p2, goal)
      decreases Size(Left(c1, ops1, i1)) + Size(Left(c2, ops2, i2))
    {
      hide *;
      var error: Option<Unprocessable>;
      error, c1, i1, c2, i2 := OnePass(c1, ops1, i1, p1, c2, ops2, i2, p2, goal);
      match error {
        case Some(e) => return Err(e);
        case None =>
      }
    }
    RunningEnds(ops1, i1, p1, ops2, i2, p2, goal);
    return Ok((p1, p2));
  }
}
