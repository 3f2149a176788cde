/**
  What two text operations on one document come to, when one is applied and then
  the other one transformed past it (overleaf-editor-core: text_operation.js lines
  643-791). The diamond says that both ways round give the same document; this says
  which document it is.
*/
module TextMerge {
  import opened TextModel
  import opened TextOperations
  import opened TextTransform
  import opened TextIds

  // ----- the merged document, place by place -----

  /** The characters that are inserted after exactly g base characters. */
  function Inserted(x: seq<Atom>, g: nat): Doc {
    if x == [] then []
    else if x[0].Add? then (if g == 0 then [x[0].ch] else []) + Inserted(x[1..], g)
    else if g == 0 then []
    else Inserted(x[1..], g - 1)
  }

  /** A base character is left if both operations keep it; the first one's word on its tracking counts, if it has one. */
  function Kept(p: Atom, q: Atom, ch: DocChar): Doc {
    if p.Keep? && q.Keep? then [Mark(ch, if p.directive.Leave? then q.directive else p.directive)] else []
  }

  /** From base character g on: what the first one inserts there, what the second one does, and the character. */
  function MergedFrom(x: seq<Atom>, y: seq<Atom>, doc: Doc, g: nat): Doc
    requires Base(x) == Base(y) == |doc| && g <= |doc|
    decreases |doc| - g, 1
  {
    Inserted(x, g) + Inserted(y, g) + AfterPlace(x, y, doc, g)
  }

  function AfterPlace(x: seq<Atom>, y: seq<Atom>, doc: Doc, g: nat): Doc
    requires Base(x) == Base(y) == |doc| && g <= |doc|
    decreases |doc| - g, 0
  {
    if g == |doc| then [] else Kept(BaseAtom(x, g), BaseAtom(y, g), doc[g]) + MergedFrom(x, y, doc, g + 1)
  }

  function Merged(a: seq<ScanOp>, b: seq<ScanOp>, doc: Doc): Doc
    requires Base(Atoms(a)) == Base(Atoms(b)) == |doc|
  {
    MergedFrom(Atoms(a), Atoms(b), doc, 0)
  }

  // ----- one atom less -----

  /** Without its first insertion, the first operation does the same at all later places. */
  lemma {:induction false} LaterLeft(x: seq<Atom>, y: seq<Atom>, doc: Doc, g: nat)
    requires Base(x) == Base(y) == |doc| && x != [] && x[0].Add? && 0 < g <= |doc|
    ensures MergedFrom(x, y, doc, g) == MergedFrom(x[1..], y, doc, g)
    decreases |doc| - g
  {
    assert Inserted(x, g) == Inserted(x[1..], g);
    if g < |doc| { LaterLeft(x, y, doc, g + 1); }
  }

  lemma {:induction false} LaterRight(x: seq<Atom>, y: seq<Atom>, doc: Doc, g: nat)
    requires Base(x) == Base(y) == |doc| && y != [] && y[0].Add? && 0 < g <= |doc|
    ensures MergedFrom(x, y, doc, g) == MergedFrom(x, y[1..], doc, g)
    decreases |doc| - g
  {
    assert Inserted(y, g) == Inserted(y[1..], g);
    if g < |doc| { LaterRight(x, y, doc, g + 1); }
  }

  /** Without the first base character everything is one place earlier. */
  lemma {:induction false} LaterBoth(x: seq<Atom>, y: seq<Atom>, doc: Doc, g: nat)
    requires Base(x) == Base(y) == |doc| && x != [] && !x[0].Add? && y != [] && !y[0].Add? && g < |doc|
    ensures MergedFrom(x, y, doc, g + 1) == MergedFrom(x[1..], y[1..], doc[1..], g)
    decreases |doc| - g
  {
    hide *;
    OnePlaceEarlier(x, g);
    OnePlaceEarlier(y, g);
    MergedUnfolds(x, y, doc, g + 1);
    MergedUnfolds(x[1..], y[1..], doc[1..], g);
    if g + 1 < |doc| {
      assert doc[1..][g] == doc[g + 1];
      LaterBoth(x, y, doc, g + 1);
    }
  }

  lemma MergedUnfolds(x: seq<Atom>, y: seq<Atom>, doc: Doc, g: nat)
    requires Base(x) == Base(y) == |doc| && g <= |doc|
    ensures MergedFrom(x, y, doc, g) == Inserted(x, g) + Inserted(y, g) + AfterPlace(x, y, doc, g)
    ensures AfterPlace(x, y, doc, g)
         == if g == |doc| then [] else Kept(BaseAtom(x, g), BaseAtom(y, g), doc[g]) + MergedFrom(x, y, doc, g + 1)
  {
  }

  lemma OnePlaceEarlier(x: seq<Atom>, g: nat)
    requires x != [] && !x[0].Add?
    ensures Base(x) == 1 + Base(x[1..]) && Inserted(x, g + 1) == Inserted(x[1..], g)
    ensures g < Base(x[1..]) ==> BaseAtom(x, g + 1) == BaseAtom(x[1..], g)
  {
  }

  lemma FourTogether(ch: DocChar, ins: Doc, other: Doc, tail: Doc)
    ensures [ch] + ins + other + tail == [ch] + (ins + other + tail)
    ensures [] + ([ch] + ins) + tail == [ch] + ([] + ins + tail)
  {
  }

  lemma MergedInsertLeft(x: seq<Atom>, y: seq<Atom>, doc: Doc)
    requires Base(x) == Base(y) == |doc| && x != [] && x[0].Add?
    ensures MergedFrom(x, y, doc, 0) == [x[0].ch] + MergedFrom(x[1..], y, doc, 0)
  {
    if doc != [] { LaterLeft(x, y, doc, 1); }
    assert AfterPlace(x, y, doc, 0) == AfterPlace(x[1..], y, doc, 0);
    assert Inserted(x, 0) == [x[0].ch] + Inserted(x[1..], 0);
    var tail := AfterPlace(x, y, doc, 0);
    assert MergedFrom(x, y, doc, 0) == Inserted(x, 0) + Inserted(y, 0) + tail;
    assert MergedFrom(x[1..], y, doc, 0) == Inserted(x[1..], 0) + Inserted(y, 0) + tail;
    hide *;
    FourTogether(x[0].ch, Inserted(x[1..], 0), Inserted(y, 0), tail);
  }

  lemma MergedInsertRight(x: seq<Atom>, y: seq<Atom>, doc: Doc)
    requires Base(x) == Base(y) == |doc| && (x == [] || !x[0].Add?) && y != [] && y[0].Add?
    ensures MergedFrom(x, y, doc, 0) == [y[0].ch] + MergedFrom(x, y[1..], doc, 0)
  {
    if doc != [] { LaterRight(x, y, doc, 1); }
    assert AfterPlace(x, y, doc, 0) == AfterPlace(x, y[1..], doc, 0);
    assert Inserted(x, 0) == [] && Inserted(y, 0) == [y[0].ch] + Inserted(y[1..], 0);
    var tail := AfterPlace(x, y, doc, 0);
    assert MergedFrom(x, y, doc, 0) == [] + Inserted(y, 0) + tail;
    assert MergedFrom(x, y[1..], doc, 0) == [] + Inserted(y[1..], 0) + tail;
    hide *;
    FourTogether(y[0].ch, Inserted(y[1..], 0), [], tail);
  }

  lemma MergedBase(x: seq<Atom>, y: seq<Atom>, doc: Doc)
    requires Base(x) == Base(y) == |doc| && x != [] && !x[0].Add? && y != [] && !y[0].Add?
    ensures MergedFrom(x, y, doc, 0) == Kept(x[0], y[0], doc[0]) + MergedFrom(x[1..], y[1..], doc[1..], 0)
  {
    OnePlaceEarlier(x, 0);
    OnePlaceEarlier(y, 0);
    LaterBoth(x, y, doc, 0);
    assert Inserted(x, 0) == [] && Inserted(y, 0) == [] && BaseAtom(x, 0) == x[0] && BaseAtom(y, 0) == y[0];
    hide Base, Inserted, BaseAtom, Kept;
    NothingBefore(AfterPlace(x, y, doc, 0));
  }

  lemma NothingBefore(rest: Doc)
    ensures [] + [] + rest == rest
  {
  }

  // ----- transforming merges -----

  /** One base character of both: what the transformed atom leaves of what the first one left. */
  lemma MergeStep(p: Atom, q: Atom, rest: seq<Atom>, ch: DocChar, after: Doc)
    requires !p.Add? && !q.Add? && Base(rest) == |after|
    ensures var s := AtomPair(p, q).1;
      var here := if p.Drop? then after else [Mark(ch, p.directive)] + after;
      && Base(s + rest) == |here|
      && ApplyAtoms(s + rest, here) == Kept(p, q, ch) + ApplyAtoms(rest, after)
  {
    match (p, q) {
      case (Keep(d), Keep(e)) =>
        KeepHead(AtomPair(p, q).1[0].directive, rest, Mark(ch, d), after);
      case (Keep(d), Drop) =>
        DropHead(rest, Mark(ch, d), after);
        assert [] + ApplyAtoms(rest, after) == ApplyAtoms(rest, after);
      case (Drop, _) =>
        assert [] + rest == rest && [] + ApplyAtoms(rest, after) == ApplyAtoms(rest, after);
    }
  }

  lemma {:induction false} TransformAtomsMerges(x: seq<Atom>, y: seq<Atom>, doc: Doc)
    requires Base(x) == Base(y) == |doc|
    ensures var r := TransformAtoms(x, y);
      Base(r.1) == Target(x) && ApplyAtoms(r.1, ApplyAtoms(x, doc)) == MergedFrom(x, y, doc, 0)
    decreases |x| + |y|
  {
    TransformAtomsCounts(x, y);
    if x == [] && y == [] {
    } else if x != [] && x[0].Add? {
      TransformAtomsMerges(x[1..], y, doc);
      MergedInsertLeft(x, y, doc);
      KeepHead(Leave, TransformAtoms(x[1..], y).1, x[0].ch, ApplyAtoms(x[1..], doc));
    } else if y != [] && y[0].Add? {
      TransformAtomsMerges(x, y[1..], doc);
      MergedInsertRight(x, y, doc);
      ApplyCons(y[0], TransformAtoms(x, y[1..]).1, ApplyAtoms(x, doc));
    } else {
      TransformAtomsMerges(x[1..], y[1..], doc[1..]);
      MergedBase(x, y, doc);
      MergeStep(x[0], y[0], TransformAtoms(x[1..], y[1..]).1, doc[0], ApplyAtoms(x[1..], doc[1..]));
    }
  }

  /**
    What transforming comes to: at every place first the text the first operation
    inserts, then the text the second one does, then the base character, if both
    keep it, with the tracking the first one gives it, or else the second one.
  */
  lemma TransformMerges(a: seq<ScanOp>, b: seq<ScanOp>, doc: Doc)
    requires Proper(a) && Proper(b) && Base(Atoms(a)) == Base(Atoms(b)) == |doc|
    requires DistinctIds(a) && DistinctIds(b)
    ensures var r := TransformOps(a, b);
      && Base(Atoms(r.1)) == Target(Atoms(a)) && Base(Atoms(r.0)) == Target(Atoms(b))
      && ApplyOps(r.1, ApplyOps(a, doc)) == ApplyOps(r.0, ApplyOps(b, doc)) == Merged(a, b, doc)
  {
    TransformDiamond(a, b, doc);
    TransformRefines(a, b, [], []);
    var r, x := TransformOps(a, b), TransformAtoms(Atoms(a), Atoms(b));
    assert Atoms([]) + x.1 == x.1;
    TransformAtomsMerges(Atoms(a), Atoms(b), doc);
    SameEffectSameResult(Atoms(r.1), x.1, ApplyOps(a, doc));
  }

  // ----- one operation alone, and comment marks -----

  /** Read place by place like this, an operation next to one that does nothing is just that operation. */
  lemma {:induction false} MergedWithNothing(x: seq<Atom>, doc: Doc)
    requires Base(x) == |doc|
    ensures Base(Repeat(Keep(Leave), |doc|)) == |doc|
    ensures MergedFrom(x, Repeat(Keep(Leave), |doc|), doc, 0) == ApplyAtoms(x, doc)
    decreases |x|
  {
    var y := Repeat(Keep(Leave), |doc|);
    CountsRepeat(Keep(Leave), |doc|);
    if x == [] {
      assert Inserted(x, 0) + Inserted(y, 0) + [] == [];
    } else if x[0].Add? {
      hide MergedFrom, Repeat;
      MergedWithNothing(x[1..], doc);
      MergedInsertLeft(x, y, doc);
    } else {
      assert y[0] == Keep(Leave) && y[1..] == Repeat(Keep(Leave), |doc[1..]|);
      hide MergedFrom, Repeat;
      MergedWithNothing(x[1..], doc[1..]);
      MergedBase(x, y, doc);
    }
  }

  lemma {:induction false} BlindInserted(x: seq<Atom>, g: nat)
    ensures Inserted(BlindAtoms(x), g) == BlindDoc(Inserted(x, g))
  {
    if x != [] {
      assert BlindAtoms(x)[1..] == BlindAtoms(x[1..]);
      BlindInserted(x[1..], if x[0].Add? || g == 0 then g else g - 1);
    }
  }

  lemma {:induction false} BlindBaseAtom(x: seq<Atom>, i: nat)
    requires i < Base(x)
    ensures Base(BlindAtoms(x)) == Base(x) && BaseAtom(BlindAtoms(x), i) == BaseAtom(x, i) && !BaseAtom(x, i).Add?
  {
    BlindAtomsApply(x, []);
    assert BlindAtoms(x)[1..] == BlindAtoms(x[1..]);
    if x[0].Add? {
      BlindBaseAtom(x[1..], i);
    } else if i > 0 {
      BlindBaseAtom(x[1..], i - 1);
    }
  }

  lemma BlindJoined(a: Doc, b: Doc, c: Doc)
    ensures BlindDoc(a + b + c) == BlindDoc(a) + BlindDoc(b) + BlindDoc(c)
  {
  }

  lemma {:induction false} BlindMerged(x: seq<Atom>, y: seq<Atom>, doc: Doc, g: nat)
    requires Base(x) == Base(y) == |doc| && g <= |doc|
    ensures Base(BlindAtoms(x)) == Base(BlindAtoms(y)) == |BlindDoc(doc)|
    ensures MergedFrom(BlindAtoms(x), BlindAtoms(y), BlindDoc(doc), g) == BlindDoc(MergedFrom(x, y, doc, g))
    decreases |doc| - g
  {
    BlindAtomsApply(x, doc);
    BlindAtomsApply(y, doc);
    hide Base, Inserted, Kept, BaseAtom, BlindDoc, BlindAtoms;
    BlindInserted(x, g);
    BlindInserted(y, g);
    BlindJoined(Inserted(x, g), Inserted(y, g), AfterPlace(x, y, doc, g));
    if g < |doc| {
      BlindBaseAtom(x, g);
      BlindBaseAtom(y, g);
      BlindMerged(x, y, doc, g + 1);
      BlindLeft(BaseAtom(x, g), BaseAtom(y, g), doc, g, MergedFrom(x, y, doc, g + 1));
    } else {
      assert BlindDoc([]) == [];
    }
  }

  lemma BlindLeft(p: Atom, q: Atom, doc: Doc, g: nat, rest: Doc)
    requires g < |doc|
    ensures BlindDoc(Kept(p, q, doc[g]) + rest) == Kept(p, q, BlindDoc(doc)[g]) + BlindDoc(rest)
  {
  }

  /** Text and tracking are merged like this whatever ids the inserts carry. */
  lemma TransformMergesText(a: seq<ScanOp>, b: seq<ScanOp>, doc: Doc)
    requires Proper(a) && Proper(b) && Base(Atoms(a)) == Base(Atoms(b)) == |doc|
    ensures var r := TransformOps(a, b);
      && Base(Atoms(r.1)) == Target(Atoms(a))
      && BlindDoc(ApplyOps(r.1, ApplyOps(a, doc))) == BlindDoc(Merged(a, b, doc))
  {
    TransformShadowed(a, b, doc);
    AtomsOfBlind(a);
    AtomsOfBlind(b);
    BlindMerged(Atoms(a), Atoms(b), doc, 0);
    BlindFacts(a, doc);
    BlindFacts(b, doc);
    TransformMerges(Blind(a), Blind(b), BlindDoc(doc));
  }
}
