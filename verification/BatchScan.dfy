/**
  Walking a collection in windows of time, ascending (mongo-utils:
  batchedUpdate.js lines 86-116, 168-205 and 246-281).

  An object id is a time in whole seconds and a low part, ordered by time first.
  The loop stops when `start` is the very object `BATCH_RANGE_END`, not merely
  an equal id, so whether it is that object is part of the state.
*/
module BatchScan {
  import opened Common

  datatype Id = Id(seconds: nat, low: nat)

  predicate Less(a: Id, b: Id) {
    a.seconds < b.seconds || (a.seconds == b.seconds && a.low < b.low)
  }

  predicate Within(a: Id, lo: Id, hi: Id) { Less(lo, a) && !Less(hi, a) }

  /** Ids in a collection are distinct; a cursor sorted by id yields them like this. */
  ghost predicate Ascending(ids: seq<Id>) {
    forall i, j :: 0 <= i < j < |ids| ==> Less(ids[i], ids[j])
  }

  function FromMs(ms: nat): Id { Id(ms / 1000, 0) }

  function Ms(id: Id): nat { id.seconds * 1000 }

  // A batch size of 0 is replaced by the default when the options are read.
  datatype Options = Options(rangeEnd: Id, spanMs: nat, batchSize: nat)

  ghost predicate Sensible(o: Options) { o.batchSize > 0 }

  // ----- one turn of the loop -----

  datatype Cursor = Cursor(start: Id, atEnd: bool)

  function NextEnd(o: Options, start: Id): Cursor {
    var end := FromMs(Ms(start) + o.spanMs);
    if Ms(end) >= Ms(o.rangeEnd) then Cursor(o.rangeEnd, true) else Cursor(end, false)
  }

  /** The ids after lo up to and including hi, in order. */
  function Between(ids: seq<Id>, lo: Id, hi: Id): seq<Id> {
    if ids == [] then []
    else (if Within(ids[0], lo, hi) then [ids[0]] else []) + Between(ids[1..], lo, hi)
  }

  function Limited(ids: seq<Id>, limit: nat): (r: seq<Id>)
    ensures r <= ids && |r| <= limit && (ids != [] && limit > 0 ==> r != [])
  {
    if |ids| <= limit then ids else ids[..limit]
  }

  function NextBatch(o: Options, ids: seq<Id>, start: Id): seq<Id> {
    Limited(Between(ids, start, NextEnd(o, start).start), o.batchSize)
  }

  function Turn(o: Options, ids: seq<Id>, c: Cursor): Cursor {
    var batch := NextBatch(o, ids, c.start);
    if batch != [] then Cursor(Last(batch), false) else NextEnd(o, c.start)
  }

  // ----- windows of an ascending sequence -----

  lemma {:induction false} BetweenIsIn(ids: seq<Id>, lo: Id, hi: Id, x: Id)
    ensures x in Between(ids, lo, hi) <==> x in ids && Within(x, lo, hi)
  {
    if ids != [] {
      BetweenIsIn(ids[1..], lo, hi, x);
      assert ids == [ids[0]] + ids[1..];
    }
  }

  lemma {:induction false} BetweenNone(ids: seq<Id>, lo: Id, hi: Id)
    requires forall x :: x in ids ==> !Within(x, lo, hi)
    ensures Between(ids, lo, hi) == []
  {
    if ids != [] {
      BetweenNone(ids[1..], lo, hi);
    }
  }

  /** A window is the window up to any point in it, followed by the window from there. */
  lemma {:induction false} BetweenSplits(ids: seq<Id>, lo: Id, mid: Id, hi: Id)
    requires Ascending(ids) && !Less(mid, lo) && !Less(hi, mid)
    ensures Between(ids, lo, hi) == Between(ids, lo, mid) + Between(ids, mid, hi)
  {
    if ids != [] {
      var rest := ids[1..];
      assert Ascending(rest);
      BetweenSplits(rest, lo, mid, hi);
      if Within(ids[0], mid, hi) {
        forall x | x in ids ensures !Within(x, lo, mid) {
          var i :| 0 <= i < |ids| && ids[i] == x;
          assert i > 0 ==> Less(ids[0], ids[i]);
        }
        BetweenNone(ids, lo, mid);
      }
    }
  }

  /** A non-empty prefix of a window is the window up to its own last id. */
  lemma {:induction false} PrefixIsWindow(ids: seq<Id>, lo: Id, hi: Id, batch: seq<Id>)
    requires Ascending(ids) && batch != [] && batch <= Between(ids, lo, hi)
    ensures batch == Between(ids, lo, Last(batch)) && Within(Last(batch), lo, hi)
  {
    var last, whole := Last(batch), Between(ids, lo, hi);
    assert last == whole[|batch| - 1] && last in whole;
    BetweenIsIn(ids, lo, hi, last);
    BetweenSplits(ids, lo, last, hi);
    BetweenAscends(ids, lo, hi);
    LastOfWindow(ids, lo, last);
    var upTo := Between(ids, lo, last);
    assert Last(upTo) == whole[|upTo| - 1];
  }

  lemma {:induction false} BetweenAscends(ids: seq<Id>, lo: Id, hi: Id)
    requires Ascending(ids)
    ensures Ascending(Between(ids, lo, hi))
  {
    if ids != [] {
      assert Ascending(ids[1..]);
      BetweenAscends(ids[1..], lo, hi);
      var rest := Between(ids[1..], lo, hi);
      forall i | 0 <= i < |rest| ensures Less(ids[0], rest[i]) {
        assert rest[i] in rest;
        BetweenIsIn(ids[1..], lo, hi, rest[i]);
      }
    }
  }

  lemma LastOfWindow(ids: seq<Id>, lo: Id, last: Id)
    requires Ascending(ids) && last in ids && Less(lo, last)
    ensures Between(ids, lo, last) != [] && Last(Between(ids, lo, last)) == last
  {
    hide Between, Ascending;
    var w := Between(ids, lo, last);
    BetweenIsIn(ids, lo, last, last);
    BetweenIsIn(ids, lo, last, Last(w));
    BetweenAscends(ids, lo, last);
    LastIsLargest(w, last);
  }

  lemma LastIsLargest(w: seq<Id>, x: Id)
    requires Ascending(w) && x in w && !Less(x, Last(w))
    ensures x == Last(w)
  {
    var j :| 0 <= j < |w| && w[j] == x;
    assert j < |w| - 1 ==> Less(w[j], w[|w| - 1]);
  }

  // ----- the loop -----

  function Concat(batches: seq<seq<Id>>): seq<Id> {
    if batches == [] then [] else Concat(Front(batches)) + Last(batches)
  }

  /** The window is at least a second, or there is no second between start and end anyway. */
  predicate Advances(o: Options, start: Id) {
    o.spanMs >= 1000 || start.seconds >= o.rangeEnd.seconds
  }

  /** The ids still to come. */
  function Rest(o: Options, ids: seq<Id>, c: Cursor): seq<Id> {
    if c.atEnd then [] else Between(ids, c.start, o.rangeEnd)
  }

  /** What one turn takes and what it leaves make up what there was to take. */
  lemma TurnSplits(o: Options, ids: seq<Id>, start: Id)
    requires Sensible(o) && Ascending(ids) && Advances(o, start)
    ensures var u := Turn(o, ids, Cursor(start, false));
      && NextBatch(o, ids, start) + Rest(o, ids, u) == Rest(o, ids, Cursor(start, false))
      && Advances(o, u.start)
      && (!u.atEnd ==> Less(start, u.start))
  {
    var end, batch := NextEnd(o, start), NextBatch(o, ids, start);
    if batch != [] {
      PrefixIsWindow(ids, start, end.start, batch);
      BetweenSplits(ids, start, Last(batch), o.rangeEnd);
    } else if !end.atEnd {
      BetweenSplits(ids, start, end.start, o.rangeEnd);
    }
  }

  /** How much is left: ids first, then seconds. */
  function Left(o: Options, ids: seq<Id>, c: Cursor): nat {
    |Rest(o, ids, c)|
  }

  function Seconds(o: Options, c: Cursor): nat {
    if c.atEnd || c.start.seconds >= o.rangeEnd.seconds then 0 else o.rangeEnd.seconds - c.start.seconds
  }

  lemma TurnProgresses(o: Options, ids: seq<Id>, start: Id)
    requires Sensible(o) && Ascending(ids) && Advances(o, start)
    ensures var c, u := Cursor(start, false), Turn(o, ids, Cursor(start, false));
      u.atEnd || Left(o, ids, u) < Left(o, ids, c) || (Left(o, ids, u) == Left(o, ids, c) && Seconds(o, u) < Seconds(o, c))
  {
    TurnSplits(o, ids, start);
  }

  /** A batch is as long as batches get, or it takes its whole window; either way it starts where the window does. */
  ghost predicate FullOrAll(o: Options, ids: seq<Id>, start: Id, batch: seq<Id>) {
    var window := Between(ids, start, NextEnd(o, start).start);
    0 < |batch| && batch <= window && (|batch| == o.batchSize || (batch == window && |batch| < o.batchSize))
  }

  ghost predicate EachFullOrAll(o: Options, ids: seq<Id>, starts: seq<Id>, batches: seq<seq<Id>>) {
    |starts| == |batches| && forall k :: 0 <= k < |batches| ==> FullOrAll(o, ids, starts[k], batches[k])
  }

  lemma OneMoreBatch(o: Options, ids: seq<Id>, starts: seq<Id>, batches: seq<seq<Id>>, start: Id, batch: seq<Id>)
    requires EachFullOrAll(o, ids, starts, batches) && FullOrAll(o, ids, start, batch)
    ensures EachFullOrAll(o, ids, starts + [start], batches + [batch])
  {
    hide FullOrAll;
  }

  lemma NoneOverLong(o: Options, ids: seq<Id>, starts: seq<Id>, batches: seq<seq<Id>>)
    requires EachFullOrAll(o, ids, starts, batches)
    ensures forall b :: b in batches ==> 0 < |b| <= o.batchSize
  {
    hide Between, NextEnd;
    forall b | b in batches ensures 0 < |b| <= o.batchSize {
      var k :| 0 <= k < |batches| && batches[k] == b;
      assert FullOrAll(o, ids, starts[k], batches[k]);
    }
  }

  lemma NothingTaken(o: Options, ids: seq<Id>, start: Id)
    ensures Concat([]) == [] && EachFullOrAll(o, ids, [], [])
    ensures [] + Rest(o, ids, Cursor(start, false)) == Between(ids, start, o.rangeEnd)
  {
  }

  lemma NothingLeft(o: Options, ids: seq<Id>, c: Cursor, taken: seq<Id>)
    requires c.atEnd
    ensures taken + Rest(o, ids, c) == taken
  {
  }

  /** All that the loop needs to know about one turn. */
  lemma TurnTakes(o: Options, ids: seq<Id>, c: Cursor)
    requires Sensible(o) && Ascending(ids) && Advances(o, c.start) && !c.atEnd
    ensures var end, u := NextEnd(o, c.start), Turn(o, ids, c);
      var batch := Limited(Between(ids, c.start, end.start), o.batchSize);
      && u == (if |batch| > 0 then Cursor(Last(batch), false) else end)
      && batch + Rest(o, ids, u) == Rest(o, ids, c) && Advances(o, u.start)
      && |batch| <= o.batchSize && (|batch| > 0 ==> FullOrAll(o, ids, c.start, batch))
      && (if u.atEnd then Left(o, ids, u) <= Left(o, ids, c) && Seconds(o, u) <= Seconds(o, c)
          else Left(o, ids, u) < Left(o, ids, c) || (Left(o, ids, u) == Left(o, ids, c) && Seconds(o, u) < Seconds(o, c)))
  {
    TurnSplits(o, ids, c.start);
    TurnProgresses(o, ids, c.start);
    hide Between, Ascending;
  }

  /**
    The batches are exactly the ids after the start up to and including the end, in
    order, each once, whatever the batch size; none is empty or over-long, and none
    is shorter than it need be. `starts` are the points the batches were read from.
  */
  method BatchedUpdate(o: Options, ids: seq<Id>, rangeStart: Id)
    returns (updated: nat, batches: seq<seq<Id>>, ghost starts: seq<Id>)
    requires Sensible(o) && Ascending(ids) && Advances(o, rangeStart)
    ensures Concat(batches) == Between(ids, rangeStart, o.rangeEnd)
    ensures updated == |Between(ids, rangeStart, o.rangeEnd)|
    ensures forall b :: b in batches ==> 0 < |b| <= o.batchSize
    ensures EachFullOrAll(o, ids, starts, batches)
  {
    hide *;
    updated, batches, starts := 0, [], [];
    var c := Cursor(rangeStart, false);
    NothingTaken(o, ids, rangeStart);
    while !c.atEnd
      invariant Advances(o, c.start) && updated == |Concat(batches)|
      invariant Concat(batches) + Rest(o, ids, c) == Between(ids, rangeStart, o.rangeEnd)
      invariant EachFullOrAll(o, ids, starts, batches)
      decreases Left(o, ids, c), Seconds(o, c), !c.atEnd
    {
      hide *;
      TurnTakes(o, ids, c);
      var end := NextEnd(o, c.start);
      var nextBatch := Limited(Between(ids, c.start, end.start), o.batchSize);
      TakesBatch(batches, nextBatch, Rest(o, ids, Turn(o, ids, c)));
      if |nextBatch| > 0 {
        OneMoreBatch(o, ids, starts, batches, c.start, nextBatch);
        end := Cursor(Last(nextBatch), false);
        updated := updated + |nextBatch|;
        batches := batches + [nextBatch];
        starts := starts + [c.start];
      }
      c := end;
    }
    NothingLeft(o, ids, c, Concat(batches));
    NoneOverLong(o, ids, starts, batches);
  }

  lemma TakesBatch(batches: seq<seq<Id>>, batch: seq<Id>, rest: seq<Id>)
    ensures Concat(batches + [batch]) == Concat(batches) + batch
    ensures Concat(batches + [batch]) + rest == Concat(batches) + (batch + rest)
    ensures batch == [] ==> batch + rest == rest
  {
    assert Front(batches + [batch]) == batches;
  }

  // ----- exactly when it ends -----

  function After(o: Options, ids: seq<Id>, start: Id, turns: nat): Cursor {
    if turns == 0 then Cursor(start, false)
    else
      var c := After(o, ids, start, turns - 1);
      if c.atEnd then c else Turn(o, ids, c)
  }

  /** With a shorter span the first turn steps back to the start of the second, and there it stays. */
  lemma {:induction false} ShortSpansStandStill(o: Options, ids: seq<Id>, start: Id, turns: nat)
    requires !Advances(o, start)
    ensures var c := After(o, ids, start, turns);
      !c.atEnd && c.start == if turns == 0 then start else Id(start.seconds, 0)
  {
    if turns > 0 {
      ShortSpansStandStill(o, ids, start, turns - 1);
      var c := After(o, ids, start, turns - 1);
      var end := NextEnd(o, c.start);
      assert end == Cursor(Id(start.seconds, 0), false);
      forall x | x in ids ensures !Within(x, c.start, end.start) { }
      BetweenNone(ids, c.start, end.start);
    }
  }

  lemma {:induction false} AdvancingEnds(o: Options, ids: seq<Id>, start: Id) returns (turns: nat)
    requires Sensible(o) && Ascending(ids) && Advances(o, start)
    ensures After(o, ids, start, turns).atEnd
    decreases Left(o, ids, Cursor(start, false)), Seconds(o, Cursor(start, false))
  {
    TurnProgresses(o, ids, start);
    TurnSplits(o, ids, start);
    var u := Turn(o, ids, Cursor(start, false));
    if u.atEnd {
      turns := 1;
      assert After(o, ids, start, 0) == Cursor(start, false);
    } else {
      var more := AdvancingEnds(o, ids, u.start);
      AfterOneTurn(o, ids, start, more);
      turns := more + 1;
    }
  }

  lemma {:induction false} AfterOneTurn(o: Options, ids: seq<Id>, start: Id, turns: nat)
    requires !Turn(o, ids, Cursor(start, false)).atEnd
    ensures After(o, ids, start, turns + 1) == After(o, ids, Turn(o, ids, Cursor(start, false)).start, turns)
  {
    if turns == 0 {
      assert After(o, ids, start, 0) == Cursor(start, false);
    } else {
      AfterOneTurn(o, ids, start, turns - 1);
    }
  }

  /** The loop ends if and only if the span is a second or more, or start and end share a second. */
  lemma EndsExactlyWhen(o: Options, ids: seq<Id>, start: Id)
    requires Sensible(o) && Ascending(ids)
    ensures (exists turns: nat :: After(o, ids, start, turns).atEnd) <==> Advances(o, start)
  {
    if Advances(o, start) {
      var turns := AdvancingEnds(o, ids, start);
    } else {
      forall turns: nat ensures !After(o, ids, start, turns).atEnd {
        ShortSpansStandStill(o, ids, start, turns);
      }
    }
  }

  // ----- the default start -----

  /** `getIdEdgePast`: one second before the oldest id, but not before time 0. */
  function IdEdgePast(ids: seq<Id>): Option<Id> {
    if ids == [] then None else Some(FromMs(Max(0, Ms(ids[0]) - 1000)))
  }

  /** From the default start the whole collection is walked, unless its oldest id is the all-zero one. */
  lemma DefaultStartTakesAll(ids: seq<Id>, end: Id)
    requires Ascending(ids) && ids != [] && !Less(end, Last(ids))
    ensures Between(ids, IdEdgePast(ids).value, end) == ids <==> ids[0] != Id(0, 0)
  {
    var lo := IdEdgePast(ids).value;
    if ids[0] == Id(0, 0) {
      BetweenIsIn(ids, lo, end, ids[0]);
      assert ids[0] in ids;
    } else {
      forall x | x in ids ensures Within(x, lo, end) {
        var i :| 0 <= i < |ids| && ids[i] == x;
        assert i > 0 ==> Less(ids[0], ids[i]);
        assert i < |ids| - 1 ==> Less(ids[i], Last(ids));
      }
      BetweenAll(ids, lo, end);
    }
  }

  lemma {:induction false} BetweenAll(ids: seq<Id>, lo: Id, hi: Id)
    requires forall x :: x in ids ==> Within(x, lo, hi)
    ensures Between(ids, lo, hi) == ids
  {
    if ids != [] {
      assert ids[0] in ids;
      BetweenAll(ids[1..], lo, hi);
    }
  }
}
