/**
  Operational transformation of lists of operations (overleaf-editor-core:
  operation/index.js lines 155-225).

  What `apply` and `transform` do to single operations is a parameter; the one
  law they must obey is the one-step diamond documented for `transform`.
*/
module OtLists {
  import opened Common

  datatype Ot<!S(!new), !O(!new)> = Ot(
    can: (S, O) -> bool,
    apply: (S, O) -> S,
    transform: (O, O) -> (O, O),
    noop: O -> bool)

  /** apply(apply(s, a), b') == apply(apply(s, b), a') for transform(a, b) == [a', b']. */
  ghost predicate DiamondAt<S(!new), O(!new)>(ot: Ot<S, O>, s: S, a: O, b: O) {
    var p := ot.transform(a, b);
    && ot.can(ot.apply(s, a), p.1) && ot.can(ot.apply(s, b), p.0)
    && ot.apply(ot.apply(s, a), p.1) == ot.apply(ot.apply(s, b), p.0)
  }

  ghost predicate Diamond<S(!new), O(!new)>(ot: Ot<S, O>) {
    forall s: S, a: O, b: O :: ot.can(s, a) && ot.can(s, b) ==> DiamondAt(ot, s, a, b)
  }

  /** A no-op leaves every state alone. */
  ghost predicate NoOpLaw<S(!new), O(!new)>(ot: Ot<S, O>) {
    forall s: S, o: O {:trigger ot.apply(s, o)} :: ot.noop(o) ==> ot.apply(s, o) == s
  }

  predicate CanAll<S(!new), O(!new)>(ot: Ot<S, O>, s: S, ops: seq<O>) {
    ops == [] || (ot.can(s, ops[0]) && CanAll(ot, ot.apply(s, ops[0]), ops[1..]))
  }

  function ApplyAll<S(!new), O(!new)>(ot: Ot<S, O>, s: S, ops: seq<O>): S {
    if ops == [] then s else ApplyAll(ot, ot.apply(s, ops[0]), ops[1..])
  }

  /** One operation carried past a list, and the list carried past it. */
  function TransformOne<S(!new), O(!new)>(ot: Ot<S, O>, a: O, bs: seq<O>): (r: (O, seq<O>))
    ensures |r.1| == |bs|
  {
    if bs == [] then (a, [])
    else
      var p := ot.transform(a, bs[0]);
      var r := TransformOne(ot, p.0, bs[1..]);
      (r.0, [p.1] + r.1)
  }

  function TransformLists<S(!new), O(!new)>(ot: Ot<S, O>, xs: seq<O>, bs: seq<O>): (r: (seq<O>, seq<O>))
    ensures |r.0| == |xs| && |r.1| == |bs|
  {
    if xs == [] then ([], bs)
    else
      var r := TransformOne(ot, xs[0], bs);
      var q := TransformLists(ot, xs[1..], r.1);
      ([r.0] + q.0, q.1)
  }

  lemma {:induction false} DiamondOne<S(!new), O(!new)>(ot: Ot<S, O>, s: S, a: O, bs: seq<O>)
    requires Diamond(ot) && ot.can(s, a) && CanAll(ot, s, bs)
    ensures var r := TransformOne(ot, a, bs);
      && CanAll(ot, ot.apply(s, a), r.1)
      && ot.can(ApplyAll(ot, s, bs), r.0)
      && ApplyAll(ot, ot.apply(s, a), r.1) == ot.apply(ApplyAll(ot, s, bs), r.0)
    decreases |bs|
  {
    if bs != [] {
      var p := ot.transform(a, bs[0]);
      assert DiamondAt(ot, s, a, bs[0]);
      DiamondOne(ot, ot.apply(s, bs[0]), p.0, bs[1..]);
      var r := TransformOne(ot, p.0, bs[1..]);
      assert ([p.1] + r.1)[1..] == r.1;
    }
  }

  /** Two lists of one operation each: one call of `transform`, the left one first. */
  lemma TransformSingle<S(!new), O(!new)>(ot: Ot<S, O>, a: O, b: O)
    ensures TransformLists(ot, [a], [b]) == ([ot.transform(a, b).0], [ot.transform(a, b).1])
  {
    var xs, bs, none: seq<O> := [a], [b], [];
    var p := ot.transform(a, b);
    assert bs[1..] == none && xs[1..] == none;
    assert TransformOne(ot, p.0, none) == (p.0, none);
    assert [p.0] + none == [p.0] && [p.1] + none == [p.1];
    assert TransformOne(ot, xs[0], bs) == (p.0, [p.1]);
    assert TransformLists(ot, none, [p.1]) == (none, [p.1]);
  }

  lemma ApplySingle<S(!new), O(!new)>(ot: Ot<S, O>, s: S, a: O)
    ensures ApplyAll(ot, s, [a]) == ot.apply(s, a)
  {
    assert [a][1..] == [];
  }

  /** The diamond for lists: the one-step law is all it takes. */
  lemma {:induction false} DiamondLists<S(!new), O(!new)>(ot: Ot<S, O>, s: S, xs: seq<O>, bs: seq<O>)
    requires Diamond(ot) && CanAll(ot, s, xs) && CanAll(ot, s, bs)
    ensures var r := TransformLists(ot, xs, bs);
      && CanAll(ot, ApplyAll(ot, s, bs), r.0)
      && CanAll(ot, ApplyAll(ot, s, xs), r.1)
      && ApplyAll(ot, ApplyAll(ot, s, bs), r.0) == ApplyAll(ot, ApplyAll(ot, s, xs), r.1)
    decreases |xs|
  {
    if xs != [] {
      DiamondOne(ot, s, xs[0], bs);
      var r := TransformOne(ot, xs[0], bs);
      DiamondLists(ot, ot.apply(s, xs[0]), xs[1..], r.1);
      var q := TransformLists(ot, xs[1..], r.1);
      assert ([r.0] + q.0)[1..] == q.0;
    }
  }

  lemma {:induction false} ApplyAllConcat<S(!new), O(!new)>(ot: Ot<S, O>, s: S, xs: seq<O>, ys: seq<O>)
    ensures ApplyAll(ot, s, xs + ys) == ApplyAll(ot, ApplyAll(ot, s, xs), ys)
    ensures CanAll(ot, s, xs + ys) == (CanAll(ot, s, xs) && CanAll(ot, ApplyAll(ot, s, xs), ys))
    decreases |xs|
  {
    if xs == [] {
      assert xs + ys == ys;
    } else {
      assert (xs + ys)[0] == xs[0] && (xs + ys)[1..] == xs[1..] + ys;
      ApplyAllConcat(ot, ot.apply(s, xs[0]), xs[1..], ys);
    }
  }

  lemma {:induction false} TransformOneConcat<S(!new), O(!new)>(ot: Ot<S, O>, a: O, bs: seq<O>, cs: seq<O>)
    ensures var r := TransformOne(ot, a, bs);
      var q := TransformOne(ot, r.0, cs);
      TransformOne(ot, a, bs + cs) == (q.0, r.1 + q.1)
    decreases |bs|
  {
    if bs == [] {
      var q := TransformOne(ot, a, cs);
      assert bs + cs == cs && [] + q.1 == q.1;
    } else {
      assert (bs + cs)[0] == bs[0] && (bs + cs)[1..] == bs[1..] + cs;
      var p := ot.transform(a, bs[0]);
      TransformOneConcat(ot, p.0, bs[1..], cs);
      var r := TransformOne(ot, p.0, bs[1..]);
      var q := TransformOne(ot, r.0, cs);
      assert [p.1] + (r.1 + q.1) == ([p.1] + r.1) + q.1;
    }
  }

  /** Going past a longer list is going past its two parts, one after the other. */
  lemma {:induction false} TransformConcatRight<S(!new), O(!new)>(ot: Ot<S, O>, xs: seq<O>, bs: seq<O>, cs: seq<O>)
    ensures var r := TransformLists(ot, xs, bs);
      var q := TransformLists(ot, r.0, cs);
      TransformLists(ot, xs, bs + cs) == (q.0, r.1 + q.1)
    decreases |xs|
  {
    if xs != [] {
      var one := TransformOne(ot, xs[0], bs);
      var two := TransformOne(ot, one.0, cs);
      TransformOneConcat(ot, xs[0], bs, cs);
      TransformConcatRight(ot, xs[1..], one.1, two.1);
      var r := TransformLists(ot, xs[1..], one.1);
      assert ([one.0] + r.0)[1..] == r.0;
    }
  }

  lemma {:induction false} TransformConcatLeft<S(!new), O(!new)>(ot: Ot<S, O>, xs: seq<O>, ys: seq<O>, bs: seq<O>)
    ensures var r := TransformLists(ot, xs, bs);
      var q := TransformLists(ot, ys, r.1);
      TransformLists(ot, xs + ys, bs) == (r.0 + q.0, q.1)
    decreases |xs|
  {
    if xs == [] {
      var q := TransformLists(ot, ys, bs);
      assert xs + ys == ys && [] + q.0 == q.0;
    } else {
      assert (xs + ys)[0] == xs[0] && (xs + ys)[1..] == xs[1..] + ys;
      var one := TransformOne(ot, xs[0], bs);
      TransformConcatLeft(ot, xs[1..], ys, one.1);
      var r := TransformLists(ot, xs[1..], one.1);
      var q := TransformLists(ot, ys, r.1);
      assert [one.0] + (r.0 + q.0) == ([one.0] + r.0) + q.0;
    }
  }

  lemma {:induction false} TransformPastNothing<S(!new), O(!new)>(ot: Ot<S, O>, xs: seq<O>)
    ensures TransformLists(ot, xs, []) == (xs, [])
    decreases |xs|
  {
    if xs != [] {
      TransformPastNothing(ot, xs[1..]);
      assert [xs[0]] + xs[1..] == xs;
    }
  }

  /** One more operation of the other list is done. */
  lemma RowStep<S(!new), O(!new)>(ot: Ot<S, O>, done: seq<O>, x: O, rest: seq<O>, one: (O, seq<O>))
    requires rest != [] && one == (TransformOne(ot, x, rest).0, done + TransformOne(ot, x, rest).1)
    ensures var p := ot.transform(x, rest[0]);
      var q := TransformOne(ot, p.0, rest[1..]);
      one == (q.0, done + [p.1] + q.1)
  {
    var p := ot.transform(x, rest[0]);
    var q := TransformOne(ot, p.0, rest[1..]);
    assert TransformOne(ot, x, rest).1 == [p.1] + q.1;
    Reassociate(done, [p.1], q.1);
  }

  /** The inner loop of `transformMultiple`: one operation past the whole other list. */
  method TransformRow<S(!new), O(!new)>(ot: Ot<S, O>, xs: array<O>, i: nat, bs: array<O>)
    requires xs != bs && i < xs.Length
    modifies xs, bs
    ensures xs[..] == old(xs[..])[i := TransformOne(ot, old(xs[i]), old(bs[..])).0]
    ensures bs[..] == TransformOne(ot, old(xs[i]), old(bs[..])).1
  {
    ghost var bs0, one := bs[..], TransformOne(ot, xs[i], bs[..]);
    assert bs0[0..] == bs0 && bs[..0] + one.1 == one.1;
    for j := 0 to bs.Length
      invariant xs[..] == old(xs[..])[i := xs[i]]
      invariant bs[j..] == bs0[j..]
      invariant var q := TransformOne(ot, xs[i], bs0[j..]); one == (q.0, bs[..j] + q.1)
    {
      hide *;
      assert bs0[j..][0] == bs[j] && bs0[j..][1..] == bs0[j + 1..];
      RowStep(ot, bs[..j], xs[i], bs0[j..], one);
      var primes := ot.transform(xs[i], bs[j]);
      ghost var done := bs[..j];
      xs[i] := primes.0;
      bs[j] := primes.1;
      assert bs[..j + 1] == done + [primes.1];
    }
    assert bs[..bs.Length] + [] == bs[..];
  }

  /** `Operation.transformMultiple`: both lists are rewritten in place. */
  method TransformMultiple<S(!new), O(!new)>(ot: Ot<S, O>, xs: array<O>, bs: array<O>)
    requires xs != bs
    modifies xs, bs
    ensures (xs[..], bs[..]) == TransformLists(ot, old(xs[..]), old(bs[..]))
  {
    ghost var xs0, goal := xs[..], TransformLists(ot, xs[..], bs[..]);
    assert xs0[0..] == xs0 && xs[..0] + goal.0 == goal.0;
    for i := 0 to xs.Length
      invariant xs[i..] == xs0[i..]
      invariant var q := TransformLists(ot, xs0[i..], bs[..]); goal == (xs[..i] + q.0, q.1)
    {
      ghost var done, one := xs[..i], TransformOne(ot, xs[i], bs[..]);
      ghost var q := TransformLists(ot, xs0[i + 1..], one.1);
      assert xs0[i..][0] == xs[i] && xs0[i..][1..] == xs0[i + 1..];
      TransformRow(ot, xs, i, bs);
      assert xs[..i + 1] == done + [one.0];
      assert done + ([one.0] + q.0) == xs[..i + 1] + q.0;
    }
    assert xs[..xs.Length] + [] == xs[..];
  }
}
