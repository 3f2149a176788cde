/**
  `TextOperation.compose` (overleaf-editor-core: text_operation.js lines
  481-641): one operation that does what two operations in a row do.
*/
module TextCompose {
  import opened Common
  import opened TextModel
  import opened TextOperations
  import opened TextTransform

  // ----- compose on atoms -----

  /** A later directive wins over an earlier one unless it says nothing. */
  function Later(first: Directive, second: Directive): Directive {
    if second.Leave? then first else second
  }

  function Chain(a: Atom, b: Atom): seq<Atom>
    requires !a.Drop? && !b.Add?
  {
    match (a, b)
    case (Keep(d), Keep(e)) => [Keep(Later(d, e))]
    case (Keep(_), Drop) => [Drop]
    case (Add(ch), Keep(e)) => [Add(Mark(ch, e))]
    case (Add(_), Drop) => []
  }

  function ComposeAtoms(a: seq<Atom>, b: seq<Atom>): seq<Atom>
    requires Target(a) == Base(b)
    decreases |a| + |b|
  {
    if a == [] && b == [] then []
    else if a != [] && a[0].Drop? then [Drop] + ComposeAtoms(a[1..], b)
    else if b != [] && b[0].Add? then [b[0]] + ComposeAtoms(a, b[1..])
    else Chain(a[0], b[0]) + ComposeAtoms(a[1..], b[1..])
  }

  lemma ChainHead(p: Atom, q: Atom, x: seq<Atom>, doc: Doc, rest: Doc)
    requires !p.Drop? && !q.Add? && Base(x) == |rest|
    requires if p.Keep? then doc != [] && rest == doc[1..] else rest == doc
    ensures Base(Chain(p, q) + x) == |doc|
    ensures ApplyAtoms(Chain(p, q) + x, doc) ==
      (if q.Drop? then [] else [Mark(if p.Keep? then Mark(doc[0], p.directive) else p.ch, q.directive)])
      + ApplyAtoms(x, rest)
  {
    var c := Chain(p, q);
    if c == [] {
      assert c + x == x;
    } else {
      assert (c + x)[0] == c[0] && (c + x)[1..] == x;
    }
  }

  lemma {:induction false} ComposeAtomsApply(a: seq<Atom>, b: seq<Atom>, doc: Doc)
    requires Base(a) == |doc| && Target(a) == Base(b)
    ensures Base(ComposeAtoms(a, b)) == |doc|
    ensures ApplyAtoms(ComposeAtoms(a, b), doc) == ApplyAtoms(b, ApplyAtoms(a, doc))
    decreases |a| + |b|
  {
    if a == [] && b == [] {
    } else if a != [] && a[0].Drop? {
      ComposeAtomsApply(a[1..], b, doc[1..]);
    } else if b != [] && b[0].Add? {
      ComposeAtomsApply(a, b[1..], doc);
    } else {
      var rest := if a[0].Keep? then doc[1..] else doc;
      ComposeAtomsApply(a[1..], b[1..], rest);
      ChainHead(a[0], b[0], ComposeAtoms(a[1..], b[1..]), doc, rest);
      var mid := ApplyAtoms(a, doc);
      assert mid[1..] == ApplyAtoms(a[1..], rest);
    }
  }

  // ----- runs -----

  /** Two runs of the same length, one producing and one consuming. */
  predicate Chainable(x: seq<Atom>, y: seq<Atom>) {
    |x| == |y| && forall i :: 0 <= i < |x| ==> !x[i].Drop? && !y[i].Add?
  }

  /** They are chained pairwise. */
  function Zip(x: seq<Atom>, y: seq<Atom>): seq<Atom>
    requires Chainable(x, y)
  {
    if x == [] then [] else Chain(x[0], y[0]) + Zip(x[1..], y[1..])
  }

  lemma {:induction false} RunCounts(x: seq<Atom>, y: seq<Atom>)
    requires Chainable(x, y)
    ensures Target(x) == Base(y) == |x|
  {
    if x != [] {
      RunCounts(x[1..], y[1..]);
    }
  }

  lemma RunsMeet(x: seq<Atom>, y: seq<Atom>, a: seq<Atom>, b: seq<Atom>)
    requires Chainable(x, y) && Target(a) == Base(b)
    ensures Target(x + a) == Base(y + b)
  {
    RunCounts(x, y);
    CountsConcat(x, a);
    CountsConcat(y, b);
  }

  lemma ZipCons(x: seq<Atom>, y: seq<Atom>, rest: seq<Atom>)
    requires Chainable(x, y) && x != []
    ensures !x[0].Drop? && !y[0].Add? && Chainable(x[1..], y[1..])
    ensures Zip(x, y) + rest == Chain(x[0], y[0]) + (Zip(x[1..], y[1..]) + rest)
  {
    assert Zip(x, y) == Chain(x[0], y[0]) + Zip(x[1..], y[1..]);
    hide *;
    Reassociate(Chain(x[0], y[0]), Zip(x[1..], y[1..]), rest);
  }

  lemma ComposeChain(p: Atom, q: Atom, a: seq<Atom>, b: seq<Atom>)
    requires !p.Drop? && !q.Add? && Target(a) == Base(b)
    ensures Target([p] + a) == Base([q] + b)
    ensures ComposeAtoms([p] + a, [q] + b) == Chain(p, q) + ComposeAtoms(a, b)
  {
    assert ([p] + a)[1..] == a && ([q] + b)[1..] == b;
  }

  lemma HeadApart(x: seq<Atom>, a: seq<Atom>)
    requires x != []
    ensures x + a == [x[0]] + (x[1..] + a)
  {
  }

  lemma {:induction false} ComposeRun(x: seq<Atom>, y: seq<Atom>, a: seq<Atom>, b: seq<Atom>)
    requires Chainable(x, y) && Target(a) == Base(b)
    ensures Target(x + a) == Base(y + b)
    ensures ComposeAtoms(x + a, y + b) == Zip(x, y) + ComposeAtoms(a, b)
  {
    RunsMeet(x, y, a, b);
    if x == [] {
      assert x + a == a && y + b == b && Zip(x, y) + ComposeAtoms(a, b) == ComposeAtoms(a, b);
    } else {
      assert |y| == |x|;
      hide *;
      ZipCons(x, y, ComposeAtoms(a, b));
      ComposeRun(x[1..], y[1..], a, b);
      ComposeChain(x[0], y[0], x[1..] + a, y[1..] + b);
      HeadApart(x, a);
      HeadApart(y, b);
    }
  }

  lemma {:induction false} ComposeDrops(n: nat, a: seq<Atom>, b: seq<Atom>)
    requires Target(a) == Base(b)
    ensures Target(Repeat(Drop, n) + a) == Base(b)
    ensures ComposeAtoms(Repeat(Drop, n) + a, b) == Repeat(Drop, n) + ComposeAtoms(a, b)
  {
    CountsRepeat(Drop, n);
    CountsConcat(Repeat(Drop, n), a);
    if n == 0 {
      assert Repeat(Drop, n) + a == a && Repeat(Drop, n) + ComposeAtoms(a, b) == ComposeAtoms(a, b);
    } else {
      ComposeDrops(n - 1, a, b);
      RepeatCons(Drop, n, a);
      RepeatCons(Drop, n, ComposeAtoms(a, b));
      assert ([Drop] + (Repeat(Drop, n - 1) + a))[1..] == Repeat(Drop, n - 1) + a;
    }
  }

  lemma {:induction false} ComposeAdds(text: Doc, a: seq<Atom>, b: seq<Atom>)
    requires Target(a) == Base(b) && (a == [] || !a[0].Drop?)
    ensures Target(a) == Base(Adds(text) + b)
    ensures ComposeAtoms(a, Adds(text) + b) == Adds(text) + ComposeAtoms(a, b)
  {
    CountsAdds(text);
    CountsConcat(Adds(text), b);
    if text == [] {
      assert Adds(text) + b == b && Adds(text) + ComposeAtoms(a, b) == ComposeAtoms(a, b);
    } else {
      var rest := Adds(text[1..]);
      ComposeAdds(text[1..], a, b);
      assert Adds(text) + b == [Add(text[0])] + (rest + b);
      assert ([Add(text[0])] + (rest + b))[1..] == rest + b;
      assert Adds(text) + ComposeAtoms(a, b) == [Add(text[0])] + (rest + ComposeAtoms(a, b));
    }
  }

  // ----- compose on operations -----

  /** The first n characters of an operation. */
  function Take(op: ScanOp, n: nat): ScanOp
    requires n <= Width(op)
  {
    match op
    case Retain(_, d) => Retain(n, d)
    case Insert(text, props, ids) => Insert(text[..n], props, ids)
    case Remove(_) => Remove(n)
  }

  function MarkProps(props: Option<TrackingProps>, d: Directive): Option<TrackingProps> {
    match d
    case Leave => props
    case Assign(p) => Some(p)
    case Clear => None
  }

  /** What one step emits when n characters produced by `a` meet n consumed by `b`. */
  function Meet(a: ScanOp, b: ScanOp, n: nat): Option<ScanOp>
    requires !a.Remove? && !b.Insert? && n <= Width(a) && n <= Width(b)
  {
    match (a, b)
    case (Retain(_, d), Retain(_, e)) => Some(Retain(n, Later(d, e)))
    case (Retain(_, _), Remove(_)) => Some(Remove(n))
    case (Insert(text, props, ids), Retain(_, e)) => Some(Insert(text[..n], MarkProps(props, e), ids))
    case (Insert(_, _, _), Remove(_)) => None
  }

  /** The loop of `compose`: what is left of both operations, and the result so far. */
  function ComposeFrom(s1: seq<ScanOp>, s2: seq<ScanOp>, p: seq<ScanOp>): seq<ScanOp>
    requires Proper(s1) && Proper(s2) && Target(Atoms(s1)) == Base(Atoms(s2))
    decreases Extent(s1) + Extent(s2)
  {
    if s1 == [] && s2 == [] then p
    else if s1 != [] && s1[0].Remove? then
      HeadCounts(s1);
      ComposeFrom(s1[1..], s2, Push(p, s1[0]))
    else if s2 != [] && s2[0].Insert? then
      HeadCounts(s2);
      ComposeFrom(s1, s2[1..], Push(p, s2[0]))
    else
      assert s1 != [] && s2 != [] by { BothLeft(s1, s2); }
      var n := Min(Width(s1[0]), Width(s2[0]));
      TakeAdvance(s1, n);
      TakeAdvance(s2, n);
      ComposeFrom(Advance(s1, n), Advance(s2, n), PushOption(p, Meet(s1[0], s2[0], n)))
  }

  function ComposeOps(a: seq<ScanOp>, b: seq<ScanOp>): seq<ScanOp>
    requires Proper(a) && Proper(b) && Target(Atoms(a)) == Base(Atoms(b))
  {
    ComposeFrom(a, b, [])
  }

  function Extent(ops: seq<ScanOp>): nat {
    if ops == [] then 0 else 1 + Width(ops[0]) + Extent(ops[1..])
  }

  lemma HeadCounts(ops: seq<ScanOp>)
    requires ops != []
    ensures Atoms(ops) == Expand(ops[0]) + Atoms(ops[1..])
    ensures Base(Atoms(ops)) == (if ops[0].Insert? then 0 else ops[0].len) + Base(Atoms(ops[1..]))
    ensures Target(Atoms(ops)) == (if ops[0].Remove? then 0 else Width(ops[0])) + Target(Atoms(ops[1..]))
  {
    CountsConcat(Expand(ops[0]), Atoms(ops[1..]));
    CountsExpand(ops[0]);
  }

  lemma BothLeft(s1: seq<ScanOp>, s2: seq<ScanOp>)
    requires Proper(s1) && Proper(s2) && Target(Atoms(s1)) == Base(Atoms(s2))
    requires s1 != [] || s2 != []
    requires s1 == [] || !s1[0].Remove?
    requires s2 == [] || !s2[0].Insert?
    ensures s1 != [] && s2 != []
  {
    if s1 != [] { HeadCounts(s1); }
    if s2 != [] { HeadCounts(s2); }
  }

  function Skip(op: ScanOp, n: nat): ScanOp
    requires n <= Width(op)
  {
    match op
    case Retain(len, d) => Retain(len - n, d)
    case Insert(text, props, ids) => Insert(text[n..], props, ids)
    case Remove(len) => Remove(len - n)
  }

  lemma ExpandSplit(op: ScanOp, n: nat)
    requires n <= Width(op)
    ensures Expand(op) == Expand(Take(op, n)) + Expand(Skip(op, n))
  {
    match op
    case Retain(len, d) =>
      RepeatSplit(Keep(d), n, len);
    case Remove(len) =>
      RepeatSplit(Drop, n, len);
    case Insert(text, props, ids) =>
      TypedSplit(text, props, ids, n);
  }

  lemma RepeatSplit(a: Atom, n: nat, len: nat)
    requires n <= len
    ensures Repeat(a, len) == Repeat(a, n) + Repeat(a, len - n)
  {
  }

  lemma TypedSplit(text: string, props: Option<TrackingProps>, ids: CommentIds, n: nat)
    requires n <= |text|
    ensures Adds(Typed(text, props, ids)) == Adds(Typed(text[..n], props, ids)) + Adds(Typed(text[n..], props, ids))
  {
    assert Typed(text, props, ids) == Typed(text[..n], props, ids) + Typed(text[n..], props, ids);
  }

  lemma TakeAdvance(ops: seq<ScanOp>, n: nat)
    requires Proper(ops) && ops != [] && 0 < n <= Width(ops[0])
    ensures var rest := Advance(ops, n);
      && Proper(rest) && Extent(rest) < Extent(ops)
      && Atoms(ops) == Expand(Take(ops[0], n)) + Atoms(rest)
      && Base(Atoms(ops)) == (if ops[0].Insert? then 0 else n) + Base(Atoms(rest))
      && Target(Atoms(ops)) == (if ops[0].Remove? then 0 else n) + Target(Atoms(rest))
  {
    TakeAdvanceAtoms(ops, n);
    CountsConcat(Expand(Take(ops[0], n)), Atoms(Advance(ops, n)));
    CountsExpand(Take(ops[0], n));
    assert n < Width(ops[0]) ==> Advance(ops, n)[1..] == ops[1..];
  }

  lemma TakeAdvanceAtoms(ops: seq<ScanOp>, n: nat)
    requires ops != [] && n <= Width(ops[0])
    ensures Atoms(ops) == Expand(Take(ops[0], n)) + Atoms(Advance(ops, n))
  {
    var op, tail := ops[0], ops[1..];
    assert ops == [op] + tail;
    AtomsCons(op, tail);
    ExpandSplit(op, n);
    if n < Width(op) {
      AtomsCons(Skip(op, n), tail);
      Reassociate(Expand(Take(op, n)), Expand(Skip(op, n)), Atoms(tail));
    } else {
      assert Expand(Skip(op, n)) == [];
      assert Expand(Take(op, n)) + [] == Expand(Take(op, n));
    }
  }

  lemma {:induction false} ZipRun(x: seq<Atom>, y: seq<Atom>, z: seq<Atom>)
    requires |x| == |y| && (z == [] || |z| == |x|)
    requires forall i :: 0 <= i < |x| ==> !x[i].Drop? && !y[i].Add?
    requires forall i :: 0 <= i < |x| ==> Chain(x[i], y[i]) == if z == [] then [] else [z[i]]
    ensures Zip(x, y) == z
  {
    if x != [] {
      ZipRun(x[1..], y[1..], if z == [] then [] else z[1..]);
    }
  }

  /** The operation a step emits expands to the pairwise chain of what met. */
  lemma MeetExpands(a: ScanOp, b: ScanOp, n: nat)
    requires !a.Remove? && !b.Insert? && n <= Width(a) && n <= Width(b)
    ensures var x, y := Expand(Take(a, n)), Expand(Take(b, n));
      && Chainable(x, y)
      && Zip(x, y) == if Meet(a, b, n).Some? then Expand(Meet(a, b, n).value) else []
  {
    var x, y := Expand(Take(a, n)), Expand(Take(b, n));
    ZipRun(x, y, if Meet(a, b, n).Some? then Expand(Meet(a, b, n).value) else []);
  }

  /** The loop over operations does exactly what the recursion over atoms says. */
  lemma {:induction false} ComposeRefines(s1: seq<ScanOp>, s2: seq<ScanOp>, p: seq<ScanOp>)
    requires Proper(s1) && Proper(s2) && Target(Atoms(s1)) == Base(Atoms(s2))
    requires DistinctIds(s1) && DistinctIds(s2) && DistinctIds(p)
    ensures SameEffect(Atoms(ComposeFrom(s1, s2, p)), Atoms(p) + ComposeAtoms(Atoms(s1), Atoms(s2)))
    decreases Extent(s1) + Extent(s2), 1
  {
    if s1 == [] && s2 == [] {
      assert Atoms(p) + [] == Atoms(p);
    } else if s1 != [] && s1[0].Remove? {
      HeadCounts(s1);
      PushDistinct(p, s1[0]);
      ComposeRefines(s1[1..], s2, Push(p, s1[0]));
      ComposeDrops(s1[0].len, Atoms(s1[1..]), Atoms(s2));
      PushThen(p, s1[0], ComposeAtoms(Atoms(s1[1..]), Atoms(s2)), Atoms(ComposeFrom(s1, s2, p)));
    } else if s2 != [] && s2[0].Insert? {
      HeadCounts(s2);
      if s1 != [] { HeadCounts(s1); }
      var text := Typed(s2[0].text, s2[0].props, s2[0].ids);
      PushDistinct(p, s2[0]);
      ComposeRefines(s1, s2[1..], Push(p, s2[0]));
      ComposeAdds(text, Atoms(s1), Atoms(s2[1..]));
      PushThen(p, s2[0], ComposeAtoms(Atoms(s1), Atoms(s2[1..])), Atoms(ComposeFrom(s1, s2, p)));
    } else {
      BothLeft(s1, s2);
      ComposeMeet(s1, s2, p);
    }
  }

  /** One turn of the loop that takes a removal of the first operation. */
  lemma ComposeRemoves(s1: seq<ScanOp>, s2: seq<ScanOp>, p: seq<ScanOp>)
    requires Proper(s1) && Proper(s2) && Target(Atoms(s1)) == Base(Atoms(s2)) && s1 != [] && s1[0].Remove?
    ensures Proper(s1[1..]) && Target(Atoms(s1[1..])) == Base(Atoms(s2))
    ensures Extent(s1[1..]) < Extent(s1)
    ensures ComposeFrom(s1, s2, p) == ComposeFrom(s1[1..], s2, Push(p, s1[0]))
  {
    HeadCounts(s1);
  }

  /** One turn of the loop that takes an insert of the second operation. */
  lemma ComposeInserts(s1: seq<ScanOp>, s2: seq<ScanOp>, p: seq<ScanOp>)
    requires Proper(s1) && Proper(s2) && Target(Atoms(s1)) == Base(Atoms(s2))
    requires (s1 != [] ==> !s1[0].Remove?) && s2 != [] && s2[0].Insert?
    ensures Proper(s2[1..]) && Target(Atoms(s1)) == Base(Atoms(s2[1..]))
    ensures Extent(s2[1..]) < Extent(s2)
    ensures ComposeFrom(s1, s2, p) == ComposeFrom(s1, s2[1..], Push(p, s2[0]))
  {
    HeadCounts(s2);
  }

  /** One turn of the loop in which both current operations move on. */
  lemma ComposeMeets(s1: seq<ScanOp>, s2: seq<ScanOp>, p: seq<ScanOp>)
    requires Proper(s1) && Proper(s2) && Target(Atoms(s1)) == Base(Atoms(s2))
    requires s1 != [] && s2 != [] && !s1[0].Remove? && !s2[0].Insert?
    ensures var n := Min(Width(s1[0]), Width(s2[0]));
      && Proper(Advance(s1, n)) && Proper(Advance(s2, n))
      && Target(Atoms(Advance(s1, n))) == Base(Atoms(Advance(s2, n)))
      && Extent(Advance(s1, n)) < Extent(s1) && Extent(Advance(s2, n)) < Extent(s2)
      && Atoms(s1) == Expand(Take(s1[0], n)) + Atoms(Advance(s1, n))
      && Atoms(s2) == Expand(Take(s2[0], n)) + Atoms(Advance(s2, n))
      && ComposeFrom(s1, s2, p)
         == ComposeFrom(Advance(s1, n), Advance(s2, n), PushOption(p, Meet(s1[0], s2[0], n)))
  {
    var n := Min(Width(s1[0]), Width(s2[0]));
    TakeAdvance(s1, n);
    TakeAdvance(s2, n);
  }

  lemma AdvanceDistinct(ops: seq<ScanOp>, n: nat)
    requires DistinctIds(ops) && ops != [] && n <= Width(ops[0])
    ensures DistinctIds(Advance(ops, n)) && (ops[0].Insert? ==> NoRepeat(ops[0].ids))
  {
    hide NoRepeat;
  }

  lemma MeetDistinct(a: ScanOp, b: ScanOp, n: nat, p: seq<ScanOp>)
    requires !a.Remove? && !b.Insert? && n <= Width(a) && n <= Width(b)
    requires DistinctIds(p) && (a.Insert? ==> NoRepeat(a.ids))
    ensures DistinctIds(PushOption(p, Meet(a, b, n)))
  {
    hide NoRepeat, DistinctIds;
    if Meet(a, b, n).Some? { PushDistinct(p, Meet(a, b, n).value); }
  }

  lemma MeetThen(p: seq<ScanOp>, met: Option<ScanOp>, zip: seq<Atom>, rest: seq<Atom>, goal: seq<Atom>)
    requires DistinctIds(p) && zip == if met.Some? then Expand(met.value) else []
    requires SameEffect(goal, Atoms(PushOption(p, met)) + rest)
    ensures SameEffect(goal, Atoms(p) + (zip + rest))
  {
    hide SameEffect, Push, DistinctIds;
    if met.Some? {
      PushDistinct(p, met.value);
      PushThen(p, met.value, rest, goal);
    } else {
      assert zip + rest == rest;
    }
  }

  lemma {:induction false} ComposeMeet(s1: seq<ScanOp>, s2: seq<ScanOp>, p: seq<ScanOp>)
    requires Proper(s1) && Proper(s2) && Target(Atoms(s1)) == Base(Atoms(s2))
    requires DistinctIds(s1) && DistinctIds(s2) && DistinctIds(p)
    requires s1 != [] && s2 != [] && !s1[0].Remove? && !s2[0].Insert?
    ensures SameEffect(Atoms(ComposeFrom(s1, s2, p)), Atoms(p) + ComposeAtoms(Atoms(s1), Atoms(s2)))
    decreases Extent(s1) + Extent(s2), 0
  {
    var n := Min(Width(s1[0]), Width(s2[0]));
    assert n <= Width(s1[0]) && n <= Width(s2[0]) && 0 <= n;
    hide *;
    var t1, t2, met := Advance(s1, n), Advance(s2, n), Meet(s1[0], s2[0], n);
    ComposeMeets(s1, s2, p);
    AdvanceDistinct(s1, n);
    AdvanceDistinct(s2, n);
    MeetDistinct(s1[0], s2[0], n, p);
    ComposeRefines(t1, t2, PushOption(p, met));
    MeetExpands(s1[0], s2[0], n);
    var x, y := Expand(Take(s1[0], n)), Expand(Take(s2[0], n));
    ComposeRun(x, y, Atoms(t1), Atoms(t2));
    MeetThen(p, met, Zip(x, y), ComposeAtoms(Atoms(t1), Atoms(t2)), Atoms(ComposeFrom(t1, t2, PushOption(p, met))));
  }

  lemma {:induction false} ComposeCanonical(s1: seq<ScanOp>, s2: seq<ScanOp>, p: seq<ScanOp>)
    requires Proper(s1) && Proper(s2) && Target(Atoms(s1)) == Base(Atoms(s2))
    requires Canonical(p)
    ensures Canonical(ComposeFrom(s1, s2, p))
    decreases Extent(s1) + Extent(s2)
  {
    if s1 == [] && s2 == [] {
    } else if s1 != [] && s1[0].Remove? {
      HeadCounts(s1);
      PushCanonical(p, s1[0]);
      ComposeCanonical(s1[1..], s2, Push(p, s1[0]));
    } else if s2 != [] && s2[0].Insert? {
      HeadCounts(s2);
      PushCanonical(p, s2[0]);
      ComposeCanonical(s1, s2[1..], Push(p, s2[0]));
    } else {
      BothLeft(s1, s2);
      var n := Min(Width(s1[0]), Width(s2[0]));
      TakeAdvance(s1, n);
      TakeAdvance(s2, n);
      var met := Meet(s1[0], s2[0], n);
      if met.Some? { PushCanonical(p, met.value); }
      ComposeCanonical(Advance(s1, n), Advance(s2, n), PushOption(p, met));
    }
  }

  /** Applying the composed operation is applying one operation after the other. */
  lemma ComposeApplies(a: seq<ScanOp>, b: seq<ScanOp>, doc: Doc)
    requires Proper(a) && Proper(b) && Base(Atoms(a)) == |doc| && Target(Atoms(a)) == Base(Atoms(b))
    requires DistinctIds(a) && DistinctIds(b)
    ensures var c := ComposeOps(a, b);
      Canonical(c) && Base(Atoms(c)) == |doc| && ApplyOps(c, doc) == ApplyOps(b, ApplyOps(a, doc))
  {
    var x := ComposeAtoms(Atoms(a), Atoms(b));
    ComposeCanonical(a, b, []);
    ComposeRefines(a, b, []);
    assert Atoms([]) + x == x;
    ComposeAtomsApply(Atoms(a), Atoms(b), doc);
    SameEffectSameResult(Atoms(ComposeOps(a, b)), x, doc);
  }
}
