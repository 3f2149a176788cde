/**
  What the guard against duplicate notes costs (overleaf-editor-core:
  ot_client.js lines 157-166): which runs trip it, that a client which loses a
  note is stuck for good, and that every version can be lost.
*/
module OtGuard {
  import opened Common
  import opened OtLists
  import opened OtClients
  import opened OtSystem

  /** The step brings the client a note whose version is smaller than the number of notes it holds back. */
  ghost predicate Trips<S(!new), O(!new)>(ot: Ot<S, O>, s: System<S, O>, step: Step<O>, id: nat) {
    && Enabled(ot, s, step) && step.Deliver? && step.id == id
    && s.log[step.version].author != id
    && step.version < |s.peers[id].client.buffer|
  }

  ghost predicate TripsAt<S(!new), O(!new)>(ot: Ot<S, O>, s0: S, steps: seq<Step<O>>, id: nat, k: nat) {
    k < |steps| && exists s: System<S, O> :: Reaches(ot, s0, steps[..k], s) && Trips(ot, s, steps[k], id)
  }

  /** Some step of the run does. */
  ghost predicate Tripped<S(!new), O(!new)>(ot: Ot<S, O>, s0: S, steps: seq<Step<O>>, id: nat) {
    exists k: nat :: TripsAt(ot, s0, steps, id, k)
  }

  lemma {:induction false} OneStatePerRun<S(!new), O(!new)>(ot: Ot<S, O>, s0: S, steps: seq<Step<O>>, s: System<S, O>,
                                                            t: System<S, O>)
    requires Reaches(ot, s0, steps, s) && Reaches(ot, s0, steps, t)
    ensures s == t
    decreases |steps|
  {
    if steps != [] {
      var r: System<S, O> :| Reaches(ot, s0, Front(steps), r) && Enabled(ot, r, Last(steps))
        && Next(ot, s0, r, Last(steps)) == Some(s);
      var u: System<S, O> :| Reaches(ot, s0, Front(steps), u) && Enabled(ot, u, Last(steps))
        && Next(ot, s0, u, Last(steps)) == Some(t);
      OneStatePerRun(ot, s0, Front(steps), r, u);
    }
  }

  lemma TrippedOneMore<S(!new), O(!new)>(ot: Ot<S, O>, s0: S, steps: seq<Step<O>>, step: Step<O>, s: System<S, O>, id: nat)
    requires Reaches(ot, s0, steps, s)
    ensures Tripped(ot, s0, steps + [step], id) <==> Tripped(ot, s0, steps, id) || Trips(ot, s, step, id)
  {
    var all := steps + [step];
    hide Reaches, Trips;
    assert forall k :: 0 <= k <= |steps| ==> all[..k] == steps[..k];
    assert steps[..|steps|] == steps;
    if Tripped(ot, s0, steps, id) {
      var k: nat :| TripsAt(ot, s0, steps, id, k);
      assert TripsAt(ot, s0, all, id, k);
    }
    if Trips(ot, s, step, id) {
      assert TripsAt(ot, s0, all, id, |steps|);
    }
    if Tripped(ot, s0, all, id) {
      var k: nat :| TripsAt(ot, s0, all, id, k);
      if k < |steps| {
        assert TripsAt(ot, s0, steps, id, k);
      } else {
        var r: System<S, O> :| Reaches(ot, s0, all[..k], r) && Trips(ot, r, all[k], id);
        OneStatePerRun(ot, s0, steps, r, s);
      }
    }
  }

  lemma DeliveryRefuses<S(!new), O(!new)>(ot: Ot<S, O>, s0: S, log: Log<O>, id: nat, p: Peer<S, O>, v: nat)
    requires Diamond(ot) && CanLog(ot, s0, log) && PeerFine(ot, s0, log, id, p)
    requires v < |log| && v !in p.delivered
    ensures Delivered(ot, log, id, p, v).Some?
    ensures Delivered(ot, log, id, p, v).value.refused
      == if log[v].author != id && v < |p.client.buffer| then p.refused + {v} else p.refused
  {
    assert PeerInv(ot, s0, log, id, p);
    hide *;
    if log[v].author == id {
      DeliverAckKeeps(ot, s0, log, id, p, v);
    } else {
      RefusedNote(ot, s0, log, id, p, v);
    }
  }

  lemma StepRefuses<S(!new), O(!new)>(ot: Ot<S, O>, s0: S, s: System<S, O>, step: Step<O>, id: nat)
    requires Diamond(ot) && Inv(ot, s0, s) && Enabled(ot, s, step) && Next(ot, s0, s, step).Some?
    ensures var t := Next(ot, s0, s, step).value;
      && Refused(s, id) <= Refused(t, id)
      && (id in s.peers ==> id in t.peers)
      && (Refused(t, id) != {} <==> Refused(s, id) != {} || Trips(ot, s, step, id))
  {
    if step.Deliver? {
      DeliverRefuses(ot, s0, s, step.id, step.version, id);
    } else {
      hide Inv, Diamond, StateAt, Versions, HandleLocal, Accept;
    }
  }

  lemma DeliverRefuses<S(!new), O(!new)>(ot: Ot<S, O>, s0: S, s: System<S, O>, to: nat, v: nat, id: nat)
    requires Diamond(ot) && Inv(ot, s0, s) && Enabled(ot, s, Deliver(to, v))
    ensures Next(ot, s0, s, Deliver(to, v)).Some?
    ensures var t := Next(ot, s0, s, Deliver(to, v)).value;
      && Refused(s, id) <= Refused(t, id)
      && (id in s.peers ==> id in t.peers)
      && (Refused(t, id) != {} <==> Refused(s, id) != {} || Trips(ot, s, Deliver(to, v), id))
  {
    assert CanLog(ot, s0, s.log) && PeerFine(ot, s0, s.log, to, s.peers[to]);
    DeliveryRefuses(ot, s0, s.log, to, s.peers[to], v);
    hide Inv, PeerFine, CanLog, Diamond, Delivered;
  }

  function Refused<S, O>(s: System<S, O>, id: nat): set<nat> {
    if id in s.peers then s.peers[id].refused else {}
  }

  /** A client has lost a note exactly when its guard was tripped on the way. */
  lemma {:induction false} RefusedWhenTripped<S(!new), O(!new)>(ot: Ot<S, O>, s0: S, steps: seq<Step<O>>, s: System<S, O>,
                                                                id: nat)
    requires Diamond(ot) && Reaches(ot, s0, steps, s)
    ensures Refused(s, id) != {} <==> Tripped(ot, s0, steps, id)
    decreases |steps|
  {
    if steps == [] {
      assert forall k: nat :: !TripsAt(ot, s0, steps, id, k);
    } else {
      var r: System<S, O> :| Reaches(ot, s0, Front(steps), r) && Enabled(ot, r, Last(steps))
        && Next(ot, s0, r, Last(steps)) == Some(s);
      assert Front(steps) + [Last(steps)] == steps;
      hide *;
      RefusedWhenTripped(ot, s0, Front(steps), r, id);
      ReachableInv(ot, s0, Front(steps), r);
      StepRefuses(ot, s0, r, Last(steps), id);
      TrippedOneMore(ot, s0, Front(steps), Last(steps), r, id);
    }
  }

  /**
    Convergence, exactly: once everything in the log has reached a client and
    nothing of its own is under way, it shows the server's content and is at the
    end of the log if no note ever reached it while it held back more notes than
    the note's version, and is stuck behind the log if one did.
  */
  lemma ConvergesExactlyWhen<S(!new), O(!new)>(ot: Ot<S, O>, s0: S, steps: seq<Step<O>>, s: System<S, O>, id: nat)
    requires Diamond(ot) && Reaches(ot, s0, steps, s) && id in s.peers
    requires var p := s.peers[id]; p.inFlight == [] && p.delivered == Versions(|s.log|)
    ensures s.peers[id].client.version == |s.log| <==> !Tripped(ot, s0, steps, id)
    ensures !Tripped(ot, s0, steps, id) ==>
      s.peers[id].client.phase == Ready && s.peers[id].client.editor == StateAt(ot, s0, s.log, |s.log|)
  {
    RefusedWhenTripped(ot, s0, steps, s, id);
    QuietClientsConverge(ot, s0, steps, s, id);
  }

  /** A client that lost a note never gets past it, whatever happens next. */
  lemma {:induction false} NeverPast<S(!new), O(!new)>(ot: Ot<S, O>, s0: S, steps: seq<Step<O>>, s: System<S, O>,
                                                       more: seq<Step<O>>, t: System<S, O>, id: nat, v: nat)
    requires Diamond(ot) && Reaches(ot, s0, steps, s) && v in Refused(s, id)
    requires Reaches(ot, s0, steps + more, t)
    ensures id in t.peers && v in t.peers[id].refused && t.peers[id].client.version <= v
    decreases |more|
  {
    if more == [] {
      assert steps + more == steps;
      OneStatePerRun(ot, s0, steps, s, t);
    } else {
      var all := steps + more;
      var r: System<S, O> :| Reaches(ot, s0, Front(all), r) && Enabled(ot, r, Last(all))
        && Next(ot, s0, r, Last(all)) == Some(t);
      assert Front(all) == steps + Front(more);
      assert r.peers[id].refused == Refused(r, id) by {
        NeverPast(ot, s0, steps, s, Front(more), r, id, v);
      }
      hide *;
      NeverPast(ot, s0, steps, s, Front(more), r, id, v);
      ReachableInv(ot, s0, Front(all), r);
      StepRefuses(ot, s0, r, Last(all), id);
    }
    StuckBehind(ot, s0, steps + more, t, id, v);
  }

  lemma StuckBehind<S(!new), O(!new)>(ot: Ot<S, O>, s0: S, steps: seq<Step<O>>, s: System<S, O>, id: nat, v: nat)
    requires Diamond(ot) && Reaches(ot, s0, steps, s) && v in Refused(s, id)
    ensures id in s.peers && v in s.peers[id].refused && s.peers[id].client.version <= v
  {
    ReachableInv(ot, s0, steps, s);
    assert PeerFine(ot, s0, s.log, id, s.peers[id]);
  }

  // ----- every version can be lost -----

  /** The first n of these operations, each in an entry of client 0. */
  function ByAuthor<O>(ops: seq<O>, n: nat): (r: Log<O>)
    requires n <= |ops|
    ensures |r| == n && forall k :: 0 <= k < n ==> r[k] == Entry(0, [ops[k]])
  {
    if n == 0 then [] else ByAuthor(ops, n - 1) + [Entry(0, [ops[n - 1]])]
  }

  /** A client that has seen the whole log and has nothing of its own. */
  function UpToDate<S(!new), O(!new)>(ot: Ot<S, O>, s0: S, log: Log<O>): Peer<S, O> {
    Peer(Client(|log|, Ready, None, [], [], [], StateAt(ot, s0, log, |log|)), [], Versions(|log|), {})
  }

  lemma After<S(!new), O(!new)>(ot: Ot<S, O>, s0: S, before: seq<Step<O>>, r: System<S, O>, step: Step<O>, s: System<S, O>)
    returns (steps: seq<Step<O>>)
    requires Reaches(ot, s0, before, r) && Enabled(ot, r, step) && Next(ot, s0, r, step) == Some(s)
    ensures Reaches(ot, s0, steps, s)
  {
    steps := before + [step];
    assert Front(steps) == before && Last(steps) == step;
  }

  lemma AfterDelivery<S(!new), O(!new)>(ot: Ot<S, O>, s0: S, before: seq<Step<O>>, r: System<S, O>, id: nat, v: nat,
                                        p: Peer<S, O>)
    returns (steps: seq<Step<O>>)
    requires Reaches(ot, s0, before, r) && id in r.peers && v < |r.log| && v !in r.peers[id].delivered
    requires Delivered(ot, r.log, id, r.peers[id], v) == Some(p)
    ensures Reaches(ot, s0, steps, System(r.log, r.peers[id := p]))
  {
    hide Delivered, Reaches;
    steps := After(ot, s0, before, r, Deliver(id, v), System(r.log, r.peers[id := p]));
  }

  lemma LocalStep<S(!new), O(!new)>(ot: Ot<S, O>, s0: S, r: System<S, O>, op: O)
    requires 0 in r.peers && r.peers[0] == UpToDate(ot, s0, r.log) && ot.can(StateAt(ot, s0, r.log, |r.log|), op)
    ensures Enabled(ot, r, Local(0, op))
    ensures var n := |r.log|;
      var busy := Client(n, Waiting, None, [op], [], [], ot.apply(StateAt(ot, s0, r.log, n), op));
      Next(ot, s0, r, Local(0, op)) == Some(r.(peers := r.peers[0 := Peer(busy, [Request(n, [op])], Versions(n), {})]))
  {
    assert [] + [op] == [op] && [] + [Request(|r.log|, [op])] == [Request(|r.log|, [op])];
  }

  lemma ReceiveStep<S(!new), O(!new)>(ot: Ot<S, O>, s0: S, r: System<S, O>, busy: Client<S, O>, op: O)
    requires var n := |r.log|; 0 in r.peers && r.peers[0] == Peer(busy, [Request(n, [op])], Versions(n), {})
    ensures Enabled(ot, r, Receive(0))
    ensures Next(ot, s0, r, Receive(0))
      == Some(System(r.log + [Entry(0, [op])], r.peers[0 := Peer(busy, [], Versions(|r.log|), {})]))
  {
    assert r.peers[0].inFlight[1..] == [];
  }

  /** Client 0 makes one change, and sees it acknowledged. */
  lemma AuthorChanges<S(!new), O(!new)>(ot: Ot<S, O>, s0: S, before: seq<Step<O>>, r: System<S, O>, op: O)
    returns (steps: seq<Step<O>>, s: System<S, O>)
    requires Reaches(ot, s0, before, r) && 0 in r.peers && r.peers[0] == UpToDate(ot, s0, r.log)
    requires ot.can(StateAt(ot, s0, r.log, |r.log|), op)
    ensures Reaches(ot, s0, steps, s)
    ensures s.log == r.log + [Entry(0, [op])] && s.peers == r.peers[0 := UpToDate(ot, s0, s.log)]
  {
    var n, log := |r.log|, r.log + [Entry(0, [op])];
    var editor := ot.apply(StateAt(ot, s0, r.log, n), op);
    var busy := Client(n, Waiting, None, [op], [], [], editor);
    var a, b := Peer(busy, [Request(n, [op])], Versions(n), {}), Peer(busy, [], Versions(n), {});
    var s1, s2 := r.(peers := r.peers[0 := a]), System(log, r.peers[0 := b]);
    s := System(log, r.peers[0 := UpToDate(ot, s0, log)]);
    LocalStep(ot, s0, r, op);
    steps := After(ot, s0, before, r, Local(0, op), s1);
    ReceiveStep(ot, s0, s1, busy, op);
    assert s1.peers[0 := b] == s2.peers;
    steps := After(ot, s0, steps, s1, Receive(0), s2);
    AckOfOne(ot, s0, r.log, op);
    assert s2.peers[0 := UpToDate(ot, s0, log)] == s.peers;
    steps := AfterDelivery(ot, s0, steps, s2, 0, n, UpToDate(ot, s0, log));
  }

  lemma AckOfOne<S(!new), O(!new)>(ot: Ot<S, O>, s0: S, log: Log<O>, op: O)
    ensures var n, grown := |log|, log + [Entry(0, [op])];
      var busy := Client(n, Waiting, None, [op], [], [], ot.apply(StateAt(ot, s0, log, n), op));
      Delivered(ot, grown, 0, Peer(busy, [], Versions(n), {}), n) == Some(UpToDate(ot, s0, grown))
  {
    var n, grown := |log|, log + [Entry(0, [op])];
    var editor := ot.apply(StateAt(ot, s0, log, n), op);
    StateAfterOne(ot, s0, log, op);
    assert grown[n] == Entry(0, [op]) && Versions(n + 1) == Versions(n) + {n};
    AckAlone(ot, n, op, editor);
    AckDelivered(ot, grown, 0, Peer(Client(n, Waiting, None, [op], [], [], editor), [], Versions(n), {}), n);
  }

  lemma AckDelivered<S(!new), O(!new)>(ot: Ot<S, O>, log: Log<O>, id: nat, p: Peer<S, O>, v: nat)
    requires v < |log| && log[v].author == id && OnAck(ot, p.client, v).Ok? && p.inFlight == []
    ensures var o := OnAck(ot, p.client, v).value;
      Delivered(ot, log, id, p, v) == Some(Peer(o.0, o.1, p.delivered + {v}, p.refused))
  {
    hide OnAck;
    assert p.inFlight + OnAck(ot, p.client, v).value.1 == OnAck(ot, p.client, v).value.1;
  }

  lemma StateAfterOne<S(!new), O(!new)>(ot: Ot<S, O>, s0: S, log: Log<O>, op: O)
    ensures var e := Entry(0, [op]);
      StateAt(ot, s0, log + [e], |log| + 1) == ot.apply(StateAt(ot, s0, log, |log|), op)
  {
    var seen := StateAt(ot, s0, log, |log|);
    LogGrows(ot, s0, log, Entry(0, [op]), |log|);
    assert [op][1..] == [] && ApplyAll(ot, seen, [op]) == ApplyAll(ot, ot.apply(seen, op), []);
  }

  lemma AckAlone<S(!new), O(!new)>(ot: Ot<S, O>, n: nat, op: O, editor: S)
    ensures OnAck(ot, Client(n, Waiting, None, [op], [], [], editor), n) == Ok((Client(n + 1, Ready, None, [], [], [], editor), []))
  {
    var acked := Client(n, Waiting, Some(n), [op], [], [], editor);
    var done := Client(n + 1, Ready, None, [], [], [], editor);
    NotesNotAtAll(done.buffer, n + 1);
    assert Advance(ot, done) == Ok((done, []));
    assert HandleAck(acked.(version := n + 1, ackVersion := None)) == Ok((done, []));
    AdvanceTakesAck(ot, acked);
    var none: seq<Request<O>> := [];
    assert none + none == none;
    assert Client(n, Waiting, None, [op], [], [], editor).(ackVersion := Some(n)) == acked;
  }

  lemma {:induction false} StateOfPrefix<S(!new), O(!new)>(ot: Ot<S, O>, s0: S, ops: seq<O>, log: Log<O>, n: nat)
    requires n <= |log| <= |ops| && log == ByAuthor(ops, |log|)
    ensures StateAt(ot, s0, log, n) == ApplyAll(ot, s0, ops[..n])
  {
    if n > 0 {
      StateOfPrefix(ot, s0, ops, log, n - 1);
      ApplyAllConcat(ot, s0, ops[..n - 1], [ops[n - 1]]);
      assert ops[..n] == ops[..n - 1] + [ops[n - 1]];
    }
  }

  lemma CanMakeNext<S(!new), O(!new)>(ot: Ot<S, O>, s0: S, ops: seq<O>, log: Log<O>)
    requires CanAll(ot, s0, ops) && |log| < |ops| && log == ByAuthor(ops, |log|)
    ensures ot.can(StateAt(ot, s0, log, |log|), ops[|log|])
  {
    var n := |log|;
    StateOfPrefix(ot, s0, ops, log, n);
    assert ops == ops[..n] + ops[n..] && ops[n..][0] == ops[n];
    ApplyAllConcat(ot, s0, ops[..n], ops[n..]);
  }

  lemma PutTwice<K, V>(m: map<K, V>, k: K, v: V, w: V)
    ensures m[k := v][k := w] == m[k := w]
  {
  }

  /** Client 0 makes one change after the other. */
  lemma {:induction false} AuthorWrites<S(!new), O(!new)>(ot: Ot<S, O>, s0: S, before: seq<Step<O>>, r: System<S, O>,
                                                          ops: seq<O>, n: nat)
    returns (steps: seq<Step<O>>, s: System<S, O>)
    requires Reaches(ot, s0, before, r) && 0 in r.peers && r.peers[0] == UpToDate(ot, s0, r.log)
    requires |r.log| <= n <= |ops| && r.log == ByAuthor(ops, |r.log|) && CanAll(ot, s0, ops)
    ensures Reaches(ot, s0, steps, s)
    ensures s.log == ByAuthor(ops, n) && s.peers == r.peers[0 := UpToDate(ot, s0, s.log)]
    decreases n
  {
    if n == |r.log| {
      steps, s := before, r;
    } else {
      assert ByAuthor(ops, n) == ByAuthor(ops, n - 1) + [Entry(0, [ops[n - 1]])];
      hide *;
      var q: System<S, O>;
      steps, q := AuthorWrites(ot, s0, before, r, ops, n - 1);
      CanMakeNext(ot, s0, ops, q.log);
      steps, s := AuthorChanges(ot, s0, steps, q, ops[n - 1]);
      PutTwice(r.peers, 0, UpToDate(ot, s0, q.log), UpToDate(ot, s0, s.log));
    }
  }

  function HeldBack<O>(log: Log<O>, v: nat, k: nat): (r: seq<Note<O>>)
    requires v + k < |log|
    ensures |r| == k && forall i :: 0 <= i < k ==> r[i].version == v + 1 + i
  {
    if k == 0 then [] else HeldBack(log, v, k - 1) + [Note(v + k, log[v + k].ops)]
  }

  function Arrived(v: nat, k: nat): (r: set<nat>)
    ensures forall w: nat :: w in r <==> w < v || v < w <= v + k
  {
    if k == 0 then Versions(v) else Arrived(v, k - 1) + {v + k}
  }

  /** A client at version v that received the k notes after the one it needs. */
  function Behind<S(!new), O(!new)>(ot: Ot<S, O>, s0: S, log: Log<O>, v: nat, k: nat): Peer<S, O>
    requires v + k < |log|
  {
    Peer(Client(v, Ready, None, [], [], HeldBack(log, v, k), StateAt(ot, s0, log, v)), [], Arrived(v, k), {})
  }

  lemma NoteWaits<S(!new), O(!new)>(ot: Ot<S, O>, s0: S, log: Log<O>, v: nat, k: nat)
    requires 0 < k && v + k < |log| && log[v + k].author != 1
    ensures Delivered(ot, log, 1, Behind(ot, s0, log, v, k - 1), v + k) == Some(Behind(ot, s0, log, v, k))
  {
    var buffer := HeldBack(log, v, k);
    NotesNotAtAll(buffer, v);
    var held := Client(v, Ready, None, [], [], buffer, StateAt(ot, s0, log, v));
    assert Advance(ot, held) == Ok((held, []));
    assert Arrived(v, k) == Arrived(v, k - 1) + {v + k};
    assert buffer == HeldBack(log, v, k - 1) + [Note(v + k, log[v + k].ops)];
    assert !DuplicateGuard(HeldBack(log, v, k - 1), v + k);
  }

  /** Client 1 receives the notes after the one it needs. */
  lemma {:induction false} NotesWait<S(!new), O(!new)>(ot: Ot<S, O>, s0: S, before: seq<Step<O>>, r: System<S, O>, v: nat,
                                                       k: nat)
    returns (steps: seq<Step<O>>, s: System<S, O>)
    requires Reaches(ot, s0, before, r) && 1 in r.peers && v + k < |r.log| && r.peers[1] == Behind(ot, s0, r.log, v, 0)
    requires forall w :: 0 <= w < |r.log| ==> r.log[w].author != 1
    ensures Reaches(ot, s0, steps, s)
    ensures s.log == r.log && s.peers == r.peers[1 := Behind(ot, s0, r.log, v, k)]
    decreases k
  {
    if k == 0 {
      steps, s := before, r;
    } else {
      hide *;
      var q: System<S, O>;
      steps, q := NotesWait(ot, s0, before, r, v, k - 1);
      steps := OneMoreNoteWaits(ot, s0, steps, q, v, k);
      s := System(q.log, q.peers[1 := Behind(ot, s0, q.log, v, k)]);
      assert s.peers == r.peers[1 := Behind(ot, s0, r.log, v, k)];
    }
  }

  lemma OneMoreNoteWaits<S(!new), O(!new)>(ot: Ot<S, O>, s0: S, before: seq<Step<O>>, q: System<S, O>, v: nat, k: nat)
    returns (steps: seq<Step<O>>)
    requires 0 < k && v + k < |q.log| && q.log[v + k].author != 1
    requires Reaches(ot, s0, before, q) && 1 in q.peers && q.peers[1] == Behind(ot, s0, q.log, v, k - 1)
    ensures Reaches(ot, s0, steps, System(q.log, q.peers[1 := Behind(ot, s0, q.log, v, k)]))
  {
    NoteWaits(ot, s0, q.log, v, k);
    assert v + k !in q.peers[1].delivered;
    hide *;
    steps := AfterDelivery(ot, s0, before, q, 1, v + k, Behind(ot, s0, q.log, v, k));
  }

  /**
    Whatever the operations are, for every version v there is a run of two clients
    in which the note of v, just the one client 1 needs next, is refused because
    the v + 1 notes after it came first. In the end everything was delivered and
    nothing is under way, and the client is stuck at v.
  */
  lemma EveryVersionCanBeLost<S(!new), O(!new)>(ot: Ot<S, O>, s0: S, ops: seq<O>, v: nat)
    returns (steps: seq<Step<O>>, s: System<S, O>, t: System<S, O>)
    requires |ops| == 2 * v + 2 && CanAll(ot, s0, ops)
    ensures Reaches(ot, s0, steps, s) && Enabled(ot, s, Deliver(1, v)) && Next(ot, s0, s, Deliver(1, v)) == Some(t)
    ensures s.log == t.log == ByAuthor(ops, |ops|) && s.peers[1].client.version == v && s.peers[1].refused == {}
    ensures |s.peers[1].client.buffer| == v + 1
    ensures var p := t.peers[1];
      p.client.version == v && p.refused == {v} && p.inFlight == [] && p.delivered == Versions(|t.log|)
  {
    var start: System<S, O> := System([], map[]);
    s := System([], map[0 := UpToDate(ot, s0, [])]);
    steps := After(ot, s0, [], start, Join(0), s);
    steps, s := AuthorWrites(ot, s0, steps, s, ops, v);
    var joined := s.(peers := s.peers[1 := UpToDate(ot, s0, s.log)]);
    steps := After(ot, s0, steps, s, Join(1), joined);
    steps, s := AuthorWrites(ot, s0, steps, joined, ops, 2 * v + 2);
    StateOfPrefix(ot, s0, ops, joined.log, v);
    StateOfPrefix(ot, s0, ops, s.log, v);
    assert s.peers[1] == Behind(ot, s0, s.log, v, 0);
    var behind := s;
    steps, s := NotesWait(ot, s0, steps, behind, v, v + 1);
    t := LastNoteRefused(ot, s0, s, v);
  }

  lemma LastNoteRefused<S(!new), O(!new)>(ot: Ot<S, O>, s0: S, s: System<S, O>, v: nat) returns (t: System<S, O>)
    requires |s.log| == 2 * v + 2 && s.log[v].author != 1 && 1 in s.peers && s.peers[1] == Behind(ot, s0, s.log, v, v + 1)
    ensures Enabled(ot, s, Deliver(1, v)) && Next(ot, s0, s, Deliver(1, v)) == Some(t) && t.log == s.log
    ensures var p := t.peers[1];
      p.client.version == v && p.refused == {v} && p.inFlight == [] && p.delivered == Versions(|t.log|)
  {
    var p := s.peers[1];
    assert p.client.buffer[v].version == v + 1 + v;
    assert DuplicateGuard(p.client.buffer, v);
    t := Next(ot, s0, s, Deliver(1, v)).value;
    assert Arrived(v, v + 1) + {v} == Versions(2 * v + 2);
  }
}
