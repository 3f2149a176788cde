/**
  Rebasing changes (overleaf-editor-core: rebase.js, and `transformAfter` of
  change.js lines 309-330).
*/
module Rebase {
  import opened Common
  import opened OtLists

  function Flatten<O>(lists: seq<seq<O>>): seq<O> {
    if lists == [] then [] else lists[0] + Flatten(lists[1..])
  }

  /** All our changes past one of theirs. */
  function RebasePast<S(!new), O(!new)>(ot: Ot<S, O>, ours: seq<seq<O>>, their: seq<O>): (r: (seq<seq<O>>, seq<O>))
    ensures |r.0| == |ours| && |r.1| == |their|
    ensures forall i :: 0 <= i < |ours| ==> |r.0[i]| == |ours[i]|
  {
    if ours == [] then ([], their)
    else
      var r := TransformLists(ot, ours[0], their);
      var q := RebasePast(ot, ours[1..], r.1);
      ([r.0] + q.0, q.1)
  }

  /** The double loop of `rebaseChanges` over the changes of both writers. */
  function RebaseAll<S(!new), O(!new)>(ot: Ot<S, O>, ours: seq<seq<O>>, theirs: seq<seq<O>>): (r: (seq<seq<O>>, seq<seq<O>>))
    ensures |r.0| == |ours| && |r.1| == |theirs|
    ensures forall i :: 0 <= i < |ours| ==> |r.0[i]| == |ours[i]|
    ensures forall i :: 0 <= i < |theirs| ==> |r.1[i]| == |theirs[i]|
    decreases |theirs|
  {
    if theirs == [] then (ours, [])
    else
      var r := RebasePast(ot, ours, theirs[0]);
      var q := RebaseAll(ot, r.0, theirs[1..]);
      (q.0, [r.1] + q.1)
  }

  lemma {:induction false} RebasePastFlat<S(!new), O(!new)>(ot: Ot<S, O>, ours: seq<seq<O>>, their: seq<O>)
    ensures var r := RebasePast(ot, ours, their);
      TransformLists(ot, Flatten(ours), their) == (Flatten(r.0), r.1)
  {
    if ours != [] {
      var r := TransformLists(ot, ours[0], their);
      RebasePastFlat(ot, ours[1..], r.1);
      TransformConcatLeft(ot, ours[0], Flatten(ours[1..]), their);
      var q := RebasePast(ot, ours[1..], r.1);
      assert ([r.0] + q.0)[1..] == q.0;
    }
  }

  /** The change boundaries do not matter: rebasing is one transform of two flat lists. */
  lemma {:induction false} RebaseAllFlat<S(!new), O(!new)>(ot: Ot<S, O>, ours: seq<seq<O>>, theirs: seq<seq<O>>)
    ensures var r := RebaseAll(ot, ours, theirs);
      TransformLists(ot, Flatten(ours), Flatten(theirs)) == (Flatten(r.0), Flatten(r.1))
    decreases |theirs|
  {
    if theirs == [] {
      TransformPastNothing(ot, Flatten(ours));
    } else {
      var r := RebasePast(ot, ours, theirs[0]);
      RebasePastFlat(ot, ours, theirs[0]);
      RebaseAllFlat(ot, r.0, theirs[1..]);
      TransformConcatRight(ot, Flatten(ours), theirs[0], Flatten(theirs[1..]));
      var q := RebaseAll(ot, r.0, theirs[1..]);
      assert ([r.1] + q.1)[1..] == q.1;
    }
  }

  // ----- pruning -----

  function WithoutNoOps<S(!new), O(!new)>(ot: Ot<S, O>, ops: seq<O>): (r: seq<O>)
    ensures |r| <= |ops|
    ensures forall o :: o in r ==> o in ops && !ot.noop(o)
  {
    if ops == [] then []
    else (if ot.noop(ops[0]) then [] else [ops[0]]) + WithoutNoOps(ot, ops[1..])
  }

  /** What `rebaseChanges` returns: no no-ops, and no change left empty. */
  function Prune<S(!new), O(!new)>(ot: Ot<S, O>, lists: seq<seq<O>>): seq<seq<O>> {
    if lists == [] then []
    else
      var kept := WithoutNoOps(ot, lists[0]);
      (if kept == [] then [] else [kept]) + Prune(ot, lists[1..])
  }

  lemma {:induction false} WithoutNoOpsApplies<S(!new), O(!new)>(ot: Ot<S, O>, s: S, ops: seq<O>)
    requires NoOpLaw(ot)
    ensures ApplyAll(ot, s, WithoutNoOps(ot, ops)) == ApplyAll(ot, s, ops)
    ensures CanAll(ot, s, ops) ==> CanAll(ot, s, WithoutNoOps(ot, ops))
    decreases |ops|
  {
    if ops != [] {
      var rest := WithoutNoOps(ot, ops[1..]);
      WithoutNoOpsApplies(ot, ot.apply(s, ops[0]), ops[1..]);
      if ot.noop(ops[0]) {
        assert [] + rest == rest;
      } else {
        assert ([ops[0]] + rest)[1..] == rest;
      }
    }
  }

  lemma {:induction false} PruneApplies<S(!new), O(!new)>(ot: Ot<S, O>, s: S, lists: seq<seq<O>>)
    requires NoOpLaw(ot)
    ensures ApplyAll(ot, s, Flatten(Prune(ot, lists))) == ApplyAll(ot, s, Flatten(lists))
    ensures CanAll(ot, s, Flatten(lists)) ==> CanAll(ot, s, Flatten(Prune(ot, lists)))
    decreases |lists|
  {
    if lists != [] {
      var kept, rest := WithoutNoOps(ot, lists[0]), Prune(ot, lists[1..]);
      var t := ApplyAll(ot, s, lists[0]);
      WithoutNoOpsApplies(ot, s, lists[0]);
      PruneApplies(ot, t, lists[1..]);
      ApplyAllConcat(ot, s, lists[0], Flatten(lists[1..]));
      ApplyAllConcat(ot, s, kept, Flatten(rest));
      if kept == [] {
        assert [] + rest == rest && [] + Flatten(rest) == Flatten(rest);
      } else {
        assert ([kept] + rest)[1..] == rest;
      }
    }
  }

  /**
    The diamond for lists of lists: applying all of theirs and then the rebased
    and pruned ours reaches the state of applying ours and then theirs as
    transformed past ours.
  */
  lemma RebaseDiamond<S(!new), O(!new)>(ot: Ot<S, O>, s: S, ours: seq<seq<O>>, theirs: seq<seq<O>>)
    requires Diamond(ot) && NoOpLaw(ot)
    requires CanAll(ot, s, Flatten(ours)) && CanAll(ot, s, Flatten(theirs))
    ensures var r := RebaseAll(ot, ours, theirs);
      var mine, yours := ApplyAll(ot, s, Flatten(ours)), ApplyAll(ot, s, Flatten(theirs));
      && CanAll(ot, yours, Flatten(Prune(ot, r.0))) && CanAll(ot, mine, Flatten(r.1))
      && ApplyAll(ot, yours, Flatten(Prune(ot, r.0))) == ApplyAll(ot, mine, Flatten(r.1))
  {
    RebaseAllFlat(ot, ours, theirs);
    DiamondLists(ot, s, Flatten(ours), Flatten(theirs));
    PruneApplies(ot, ApplyAll(ot, s, Flatten(theirs)), RebaseAll(ot, ours, theirs).0);
  }

  // ----- transformAfter -----

  /** `transformAfter`: every operation past every other one, none of which is carried forward. */
  function TransformAfterOps<S(!new), O(!new)>(ot: Ot<S, O>, ops: seq<O>, others: seq<O>): seq<O>
    decreases |others|
  {
    if others == [] then ops
    else TransformAfterOps(ot, seq(|ops|, j requires 0 <= j < |ops| => ot.transform(ops[j], others[0]).0), others[1..])
  }

  /** Each operation goes past the others on its own. */
  lemma {:induction false} EachOnItsOwn<S(!new), O(!new)>(ot: Ot<S, O>, ops: seq<O>, others: seq<O>)
    ensures |TransformAfterOps(ot, ops, others)| == |ops|
    ensures forall j :: 0 <= j < |ops| ==> TransformAfterOps(ot, ops, others)[j] == TransformOne(ot, ops[j], others).0
    decreases |others|
  {
    if others != [] {
      EachOnItsOwn(ot, seq(|ops|, j requires 0 <= j < |ops| => ot.transform(ops[j], others[0]).0), others[1..]);
    }
  }

  /** With at most one operation on this side, or none on the other, it agrees with rebasing. */
  lemma TransformAfterAgrees<S(!new), O(!new)>(ot: Ot<S, O>, ops: seq<O>, others: seq<O>)
    requires |ops| <= 1 || others == []
    ensures TransformAfterOps(ot, ops, others) == TransformLists(ot, ops, others).0
  {
    EachOnItsOwn(ot, ops, others);
    if others == [] {
      TransformPastNothing(ot, ops);
    } else if |ops| == 1 {
      assert TransformLists(ot, ops, others).0 == [TransformOne(ot, ops[0], others).0];
    }
  }

  /** `transformAfter` rewrites this change's operations in place and leaves the other's alone. */
  method TransformAfter<S(!new), O(!new)>(ot: Ot<S, O>, ops: array<O>, others: array<O>)
    requires ops != others
    modifies ops
    ensures ops[..] == TransformAfterOps(ot, old(ops[..]), others[..])
  {
    ghost var goal := TransformAfterOps(ot, ops[..], others[..]);
    assert others[0..] == others[..];
    for i := 0 to others.Length
      invariant goal == TransformAfterOps(ot, ops[..], others[i..])
    {
      ghost var before := ops[..];
      var other := others[i];
      assert others[i..][0] == other && others[i..][1..] == others[i + 1..];
      for j := 0 to ops.Length
        invariant forall m :: 0 <= m < j ==> ops[m] == ot.transform(before[m], other).0
        invariant forall m :: j <= m < ops.Length ==> ops[m] == before[m]
      {
        ops[j] := ot.transform(ops[j], other).0;
      }
      assert ops[..] == seq(|before|, j requires 0 <= j < |before| => ot.transform(before[j], other).0);
    }
    assert others[others.Length..] == [];
  }

  // ----- the loops of the source, over mutable changes -----

  class Change<O(!new)> {
    var operations: array<O>

    constructor (operations: array<O>)
      ensures this.operations == operations
    {
      this.operations := operations;
    }

    method SetOperations(operations: array<O>)
      modifies this
      ensures this.operations == operations
    {
      this.operations := operations;
    }
  }

  /** No two changes are the same object or share an operation list. */
  ghost predicate Separate<O(!new)>(changes: seq<Change<O>>)
    reads changes
  {
    forall i, j :: 0 <= i < j < |changes| ==>
      changes[i] != changes[j] && changes[i].operations != changes[j].operations
  }

  ghost function Arrays<O(!new)>(changes: seq<Change<O>>): set<object>
    reads changes
  {
    set c | c in changes :: c.operations
  }

  /** The changes hold exactly these operation lists. */
  ghost predicate Holds<O(!new)>(changes: seq<Change<O>>, lists: seq<seq<O>>)
    reads changes, Arrays(changes)
  {
    |changes| == |lists| && forall i :: 0 <= i < |changes| ==> changes[i].operations[..] == lists[i]
  }

  /** The first k of our changes are past `their`; the rest are still as they were. */
  ghost predicate PastSoFar<S(!new), O(!new)>(ot: Ot<S, O>, before: seq<seq<O>>, now: seq<seq<O>>, k: nat, their: seq<O>,
                                              goal: (seq<seq<O>>, seq<O>)) {
    && k <= |before| == |now|
    && now[k..] == before[k..]
    && goal == (now[..k] + RebasePast(ot, before[k..], their).0, RebasePast(ot, before[k..], their).1)
  }

  lemma PastStart<S(!new), O(!new)>(ot: Ot<S, O>, before: seq<seq<O>>, their: seq<O>)
    ensures PastSoFar(ot, before, before, 0, their, RebasePast(ot, before, their))
  {
    var goal := RebasePast(ot, before, their);
    assert before[0..] == before && before[..0] + goal.0 == goal.0;
  }

  lemma PastStep<S(!new), O(!new)>(ot: Ot<S, O>, before: seq<seq<O>>, now: seq<seq<O>>, k: nat, their: seq<O>,
                                   goal: (seq<seq<O>>, seq<O>))
    requires PastSoFar(ot, before, now, k, their, goal) && k < |before|
    ensures now[k] == before[k]
    ensures var r := TransformLists(ot, before[k], their);
      PastSoFar(ot, before, now[k := r.0], k + 1, r.1, goal)
  {
    var r := TransformLists(ot, before[k], their);
    assert before[k..][0] == before[k] && before[k..][1..] == before[k + 1..];
    Replace(now, before, k, r.0, RebasePast(ot, before[k + 1..], r.1).0);
  }

  lemma PastEnd<S(!new), O(!new)>(ot: Ot<S, O>, before: seq<seq<O>>, now: seq<seq<O>>, their: seq<O>,
                                  goal: (seq<seq<O>>, seq<O>))
    requires PastSoFar(ot, before, now, |before|, their, goal)
    ensures goal == (now, their)
  {
    assert now[..|before|] + [] == now;
  }

  /** One of our changes past one of theirs; our other changes are left alone. */
  method TransformChange<S(!new), O(!new)>(ot: Ot<S, O>, ours: seq<Change<O>>, k: nat, their: array<O>, ghost now: seq<seq<O>>)
    requires Separate(ours) && Holds(ours, now) && k < |ours|
    requires forall i :: 0 <= i < |ours| ==> ours[i].operations != their
    modifies Arrays(ours), their
    ensures var r := TransformLists(ot, now[k], old(their[..])); Holds(ours, now[k := r.0]) && their[..] == r.1
    ensures Separate(ours) && Arrays(ours) == old(Arrays(ours))
    ensures forall i :: 0 <= i < |ours| ==> ours[i].operations != their
  {
    TransformMultiple(ot, ours[k].operations, their);
    forall i | 0 <= i < |ours| && i != k ensures ours[i].operations[..] == now[i] {
      assert i < k ==> ours[i].operations != ours[k].operations;
      assert k < i ==> ours[k].operations != ours[i].operations;
    }
  }

  /** Our changes past one of theirs, all lists rewritten in place. */
  method TransformPast<S(!new), O(!new)>(ot: Ot<S, O>, ours: seq<Change<O>>, their: array<O>, ghost lists: seq<seq<O>>)
    requires Separate(ours) && Holds(ours, lists)
    requires forall i :: 0 <= i < |ours| ==> ours[i].operations != their
    modifies Arrays(ours), their
    ensures var r := RebasePast(ot, lists, old(their[..])); Holds(ours, r.0) && their[..] == r.1
  {
    ghost var now, goal := lists, RebasePast(ot, lists, their[..]);
    PastStart(ot, lists, their[..]);
    for k := 0 to |ours|
      invariant Separate(ours) && Arrays(ours) == old(Arrays(ours)) && Holds(ours, now)
      invariant forall i :: 0 <= i < |ours| ==> ours[i].operations != their
      invariant PastSoFar(ot, lists, now, k, their[..], goal)
    {
      PastStep(ot, lists, now, k, their[..], goal);
      ghost var next := now[k := TransformLists(ot, lists[k], their[..]).0];
      TransformChange(ot, ours, k, their, now);
      now := next;
    }
    PastEnd(ot, lists, now, their[..], goal);
  }

  /** The first t of their changes are done; ours are past them. */
  ghost predicate RebasedSoFar<S(!new), O(!new)>(ot: Ot<S, O>, ours: seq<seq<O>>, theirs0: seq<seq<O>>, now: seq<seq<O>>, t: nat,
                                                 goal: (seq<seq<O>>, seq<seq<O>>)) {
    && t <= |theirs0| == |now|
    && now[t..] == theirs0[t..]
    && goal == (RebaseAll(ot, ours, theirs0[t..]).0, now[..t] + RebaseAll(ot, ours, theirs0[t..]).1)
  }

  lemma RebaseStart<S(!new), O(!new)>(ot: Ot<S, O>, ours: seq<seq<O>>, theirs: seq<seq<O>>)
    ensures RebasedSoFar(ot, ours, theirs, theirs, 0, RebaseAll(ot, ours, theirs))
  {
    var goal := RebaseAll(ot, ours, theirs);
    assert theirs[0..] == theirs && theirs[..0] + goal.1 == goal.1;
  }

  lemma RebaseStep<S(!new), O(!new)>(ot: Ot<S, O>, ours: seq<seq<O>>, theirs0: seq<seq<O>>, now: seq<seq<O>>, t: nat,
                                     goal: (seq<seq<O>>, seq<seq<O>>))
    requires RebasedSoFar(ot, ours, theirs0, now, t, goal) && t < |theirs0|
    ensures now[t] == theirs0[t]
    ensures var r := RebasePast(ot, ours, theirs0[t]);
      RebasedSoFar(ot, r.0, theirs0, now[t := r.1], t + 1, goal)
  {
    var r := RebasePast(ot, ours, theirs0[t]);
    assert theirs0[t..] == [theirs0[t]] + theirs0[t + 1..];
    Replace(now, theirs0, t, r.1, RebaseAll(ot, r.0, theirs0[t + 1..]).1);
  }

  /** Replacing the first element of the part that is still to do moves it to the part that is done. */
  lemma Replace<T>(now: seq<T>, before: seq<T>, t: nat, x: T, q: seq<T>)
    requires t < |before| == |now| && now[t..] == before[t..]
    ensures now[t] == before[t]
    ensures now[t := x][t + 1..] == before[t + 1..]
    ensures now[..t] + ([x] + q) == now[t := x][..t + 1] + q
  {
    assert now[t] == now[t..][0] && before[t] == before[t..][0];
    var next := now[t := x];
    assert next[..t + 1] == now[..t] + [x];
    assert next[t + 1..] == now[t..][1..];
    assert before[t..][1..] == before[t + 1..];
  }

  lemma RebaseEnd<S(!new), O(!new)>(ot: Ot<S, O>, ours: seq<seq<O>>, theirs0: seq<seq<O>>, now: seq<seq<O>>,
                                    goal: (seq<seq<O>>, seq<seq<O>>))
    requires RebasedSoFar(ot, ours, theirs0, now, |theirs0|, goal)
    ensures goal == (ours, now)
  {
    assert now[..|theirs0|] + [] == now;
  }

  /** The two lists of changes share neither objects nor operation lists. */
  ghost predicate Apart<O(!new)>(ours: seq<Change<O>>, theirs: seq<Change<O>>)
    reads ours, theirs
  {
    && Separate(ours) && Separate(theirs)
    && forall i, j :: 0 <= i < |ours| && 0 <= j < |theirs| ==>
         ours[i] != theirs[j] && ours[i].operations != theirs[j].operations
  }

  /** One of their changes goes past all of ours; the others are left alone. */
  method TransformNext<S(!new), O(!new)>(ot: Ot<S, O>, ours: seq<Change<O>>, theirs: seq<Change<O>>, t: nat,
                                         ghost our: seq<seq<O>>, ghost their: seq<seq<O>>)
    returns (ghost our': seq<seq<O>>, ghost their': seq<seq<O>>)
    requires Apart(ours, theirs) && Holds(ours, our) && Holds(theirs, their) && t < |theirs|
    modifies Arrays(ours), Arrays(theirs)
    ensures Apart(ours, theirs) && Arrays(ours) == old(Arrays(ours)) && Arrays(theirs) == old(Arrays(theirs))
    ensures var r := RebasePast(ot, our, their[t]); our' == r.0 && their' == their[t := r.1]
    ensures Holds(ours, our') && Holds(theirs, their')
  {
    ghost var r := RebasePast(ot, our, their[t]);
    our', their' := r.0, their[t := r.1];
    TransformPast(ot, ours, theirs[t].operations, our);
    forall i | 0 <= i < |theirs| ensures theirs[i].operations[..] == their'[i] {
      assert i < t ==> theirs[i].operations != theirs[t].operations;
      assert t < i ==> theirs[t].operations != theirs[i].operations;
    }
  }

  /** The double loop: every change of theirs goes past all of ours. */
  method TransformAll<S(!new), O(!new)>(ot: Ot<S, O>, ours: seq<Change<O>>, theirs: seq<Change<O>>,
                                        ghost mine: seq<seq<O>>, ghost yours: seq<seq<O>>)
    requires Apart(ours, theirs) && Holds(ours, mine) && Holds(theirs, yours)
    modifies Arrays(ours), Arrays(theirs)
    ensures Apart(ours, theirs)
    ensures var r := RebaseAll(ot, mine, yours); Holds(ours, r.0) && Holds(theirs, r.1)
  {
    ghost var goal := RebaseAll(ot, mine, yours);
    ghost var our, their := mine, yours;
    RebaseStart(ot, mine, yours);
    for t := 0 to |theirs|
      invariant Apart(ours, theirs) && Arrays(ours) == old(Arrays(ours)) && Arrays(theirs) == old(Arrays(theirs))
      invariant Holds(ours, our) && Holds(theirs, their)
      invariant RebasedSoFar(ot, our, yours, their, t, goal)
    {
      RebaseStep(ot, our, yours, their, t, goal);
      our, their := TransformNext(ot, ours, theirs, t, our, their);
    }
    RebaseEnd(ot, our, yours, their, goal);
  }

  lemma {:induction false} WithoutNoOpsSnoc<S(!new), O(!new)>(ot: Ot<S, O>, ops: seq<O>, o: O)
    ensures WithoutNoOps(ot, ops + [o]) == WithoutNoOps(ot, ops) + if ot.noop(o) then [] else [o]
    decreases |ops|
  {
    if ops == [] {
      assert ops + [o] == [o];
    } else {
      var all := ops + [o];
      assert all[0] == ops[0] && all[1..] == ops[1..] + [o];
      var head := if ot.noop(ops[0]) then [] else [ops[0]];
      assert WithoutNoOps(ot, all) == head + WithoutNoOps(ot, all[1..]);
      assert WithoutNoOps(ot, ops) == head + WithoutNoOps(ot, ops[1..]);
      hide *;
      WithoutNoOpsSnoc(ot, ops[1..], o);
      Reassociate(head, WithoutNoOps(ot, ops[1..]), if ot.noop(o) then [] else [o]);
    }
  }

  lemma {:induction false} PruneSnoc<S(!new), O(!new)>(ot: Ot<S, O>, lists: seq<seq<O>>, ops: seq<O>)
    ensures Prune(ot, lists + [ops])
         == Prune(ot, lists) + if WithoutNoOps(ot, ops) == [] then [] else [WithoutNoOps(ot, ops)]
    decreases |lists|
  {
    if lists == [] {
      assert lists + [ops] == [ops];
    } else {
      assert (lists + [ops])[0] == lists[0] && (lists + [ops])[1..] == lists[1..] + [ops];
      PruneSnoc(ot, lists[1..], ops);
    }
  }

  /** `operations.filter(operation => !operation.isNoOp())`: a new list. */
  method KeepOps<S(!new), O(!new)>(ot: Ot<S, O>, ops: array<O>) returns (kept: array<O>)
    ensures fresh(kept) && kept[..] == WithoutNoOps(ot, ops[..])
  {
    var found: seq<O> := [];
    for i := 0 to ops.Length
      invariant found == WithoutNoOps(ot, ops[..i])
    {
      assert ops[..i + 1] == ops[..i] + [ops[i]];
      WithoutNoOpsSnoc(ot, ops[..i], ops[i]);
      if !ot.noop(ops[i]) {
        found := found + [ops[i]];
      }
    }
    assert ops[..ops.Length] == ops[..];
    kept := new O[|found|](i requires 0 <= i < |found| => found[i]);
    assert kept[..] == found;
  }

  /** The changes that still carry an operation: a subsequence, each with the list of its own. */
  function Survivors<S(!new), O(!new), C>(ot: Ot<S, O>, changes: seq<C>, lists: seq<seq<O>>): (r: seq<C>)
    requires |changes| == |lists|
    ensures |r| == |Prune(ot, lists)|
  {
    if changes == [] then []
    else
      (if WithoutNoOps(ot, lists[0]) == [] then [] else [changes[0]]) + Survivors(ot, changes[1..], lists[1..])
  }

  lemma {:induction false} SurvivorsSnoc<S(!new), O(!new), C>(ot: Ot<S, O>, changes: seq<C>, lists: seq<seq<O>>, c: C, ops: seq<O>)
    requires |changes| == |lists|
    ensures Survivors(ot, changes + [c], lists + [ops])
         == Survivors(ot, changes, lists) + if WithoutNoOps(ot, ops) == [] then [] else [c]
    decreases |changes|
  {
    if changes == [] {
      assert changes + [c] == [c] && lists + [ops] == [ops];
    } else {
      assert (changes + [c])[0] == changes[0] && (changes + [c])[1..] == changes[1..] + [c];
      assert (lists + [ops])[0] == lists[0] && (lists + [ops])[1..] == lists[1..] + [ops];
      SurvivorsSnoc(ot, changes[1..], lists[1..], c, ops);
    }
  }

  lemma OneMorePruned<S(!new), O(!new), C>(ot: Ot<S, O>, changes: seq<C>, lists: seq<seq<O>>, k: nat)
    requires k < |changes| == |lists|
    ensures var left := WithoutNoOps(ot, lists[k]);
      && Prune(ot, lists[..k + 1]) == Prune(ot, lists[..k]) + (if left == [] then [] else [left])
      && Survivors(ot, changes[..k + 1], lists[..k + 1])
           == Survivors(ot, changes[..k], lists[..k]) + (if left == [] then [] else [changes[k]])
  {
    assert lists[..k + 1] == lists[..k] + [lists[k]] && changes[..k + 1] == changes[..k] + [changes[k]];
    PruneSnoc(ot, lists[..k], lists[k]);
    SurvivorsSnoc(ot, changes[..k], lists[..k], changes[k], lists[k]);
  }

  /** What pruning leaves in a change object: a change that is dropped keeps its no-ops. */
  function LeftIn<S(!new), O(!new)>(ot: Ot<S, O>, ops: seq<O>): seq<O> {
    if WithoutNoOps(ot, ops) == [] then ops else WithoutNoOps(ot, ops)
  }

  /** The body of the pruning loop: a change that still carries an operation is kept. */
  method PruneOne<S(!new), O(!new)>(ot: Ot<S, O>, ours: seq<Change<O>>, k: nat, kept: seq<Change<O>>,
                                    ghost lists: seq<seq<O>>)
    returns (rebased: seq<Change<O>>)
    requires k < |ours| && forall i, j :: 0 <= i < j < |ours| ==> ours[i] != ours[j]
    requires Holds(kept, lists) && forall c :: c in kept ==> c in ours[..k]
    modifies ours[k]
    ensures var left := WithoutNoOps(ot, old(ours[k].operations[..]));
      && Holds(rebased, lists + if left == [] then [] else [left])
      && rebased == kept + if left == [] then [] else [ours[k]]
    ensures ours[k].operations[..] == LeftIn(ot, old(ours[k].operations[..]))
    ensures forall c :: c in rebased ==> c in ours[..k + 1]
  {
    var change := ours[k];
    assert change !in ours[..k] && ours[..k + 1] == ours[..k] + [change];
    var operations := KeepOps(ot, change.operations);
    if operations.Length == 0 {
      assert kept + [] == kept && lists + [] == lists;
      return kept;
    }
    change.SetOperations(operations);
    rebased := kept + [change];
    forall i | 0 <= i < |kept| ensures rebased[i].operations[..] == lists[i] {
      assert kept[i] in kept && kept[i] != change;
    }
  }

  /** The first k of our changes are pruned, and `rebased` is what is left of them. */
  ghost predicate PrunedSoFar<S(!new), O(!new)>(ot: Ot<S, O>, ours: seq<Change<O>>, lists: seq<seq<O>>, k: nat,
                                                rebased: seq<Change<O>>)
    reads ours, rebased, Arrays(ours), Arrays(rebased)
  {
    && k <= |ours| == |lists|
    && rebased == Survivors(ot, ours[..k], lists[..k]) && Holds(rebased, Prune(ot, lists[..k]))
    && (forall c :: c in rebased ==> c in ours[..k])
    && forall i :: 0 <= i < |ours| ==> ours[i].operations[..] == if i < k then LeftIn(ot, lists[i]) else lists[i]
  }

  method PruneNext<S(!new), O(!new)>(ot: Ot<S, O>, ours: seq<Change<O>>, k: nat, kept: seq<Change<O>>,
                                     ghost lists: seq<seq<O>>)
    returns (rebased: seq<Change<O>>)
    requires k < |ours| && forall i, j :: 0 <= i < j < |ours| ==> ours[i] != ours[j]
    requires PrunedSoFar(ot, ours, lists, k, kept)
    modifies ours[k]
    ensures PrunedSoFar(ot, ours, lists, k + 1, rebased)
  {
    hide Prune, WithoutNoOps, LeftIn, Survivors;
    OneMorePruned(ot, ours, lists, k);
    rebased := PruneOne(ot, ours, k, kept, Prune(ot, lists[..k]));
  }

  /** The pruning loop. */
  method PruneAll<S(!new), O(!new)>(ot: Ot<S, O>, ours: seq<Change<O>>, ghost lists: seq<seq<O>>)
    returns (rebased: seq<Change<O>>)
    requires forall i, j :: 0 <= i < j < |ours| ==> ours[i] != ours[j]
    requires Holds(ours, lists)
    modifies ours
    ensures rebased == Survivors(ot, ours, lists) && Holds(rebased, Prune(ot, lists))
    ensures forall k :: 0 <= k < |ours| ==> ours[k].operations[..] == LeftIn(ot, lists[k])
  {
    rebased := [];
    for k := 0 to |ours|
      invariant PrunedSoFar(ot, ours, lists, k, rebased)
    {
      rebased := PruneNext(ot, ours, k, rebased, lists);
    }
    assert lists[..|ours|] == lists && ours[..|ours|] == ours;
  }

  /**
    Both sides are rewritten in place. The result is those of our own change
    objects, in order, that still carry an operation; each object holds the
    pruned form of its own rebased operations.
  */
  method RebaseChanges<S(!new), O(!new)>(ot: Ot<S, O>, ours: seq<Change<O>>, theirs: seq<Change<O>>,
                                         ghost mine: seq<seq<O>>, ghost yours: seq<seq<O>>)
    returns (rebased: seq<Change<O>>)
    requires Apart(ours, theirs) && Holds(ours, mine) && Holds(theirs, yours)
    modifies ours, Arrays(ours), Arrays(theirs)
    ensures var r := RebaseAll(ot, mine, yours);
      && rebased == Survivors(ot, ours, r.0) && Holds(rebased, Prune(ot, r.0))
      && (forall k :: 0 <= k < |ours| ==> ours[k].operations[..] == LeftIn(ot, r.0[k]))
      && Holds(theirs, r.1)
  {
    TransformAll(ot, ours, theirs, mine, yours);
    assert Apart(ours, theirs);
    rebased := PruneAll(ot, ours, RebaseAll(ot, mine, yours).0);
  }
}
