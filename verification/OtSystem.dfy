/**
  Clients, one server log and a network that delivers every version once, in any
  order (overleaf-editor-core: ot_client.js, and change_request.js lines 13-24
  for what the server does with a request).

  The server transforms a late request past the entries it missed and appends it
  to the log. A client whose note is refused by the duplicate guard loses that
  note; nothing else is ever thrown.
*/
module OtSystem {
  import opened Common
  import opened OtLists
  import opened OtClients

  datatype Entry<O> = Entry(author: nat, ops: seq<O>)

  type Log<O> = seq<Entry<O>>

  // A client and what the network holds for it: requests under way to the
  // server, the versions delivered to it, and those it refused.
  datatype Peer<S, O> = Peer(client: Client<S, O>, inFlight: seq<Request<O>>, delivered: set<nat>, refused: set<nat>)

  datatype System<S, O> = System(log: Log<O>, peers: map<nat, Peer<S, O>>)

  // ----- the log -----

  /** The server's content after n entries. */
  function StateAt<S(!new), O(!new)>(ot: Ot<S, O>, s0: S, log: Log<O>, n: nat): S
    requires n <= |log|
  {
    if n == 0 then s0 else ApplyAll(ot, StateAt(ot, s0, log, n - 1), log[n - 1].ops)
  }

  ghost predicate CanLog<S(!new), O(!new)>(ot: Ot<S, O>, s0: S, log: Log<O>) {
    forall n :: 0 <= n < |log| ==> CanAll(ot, StateAt(ot, s0, log, n), log[n].ops)
  }

  /** Operations carried past the entries from `b` up to `n`. */
  function Through<S(!new), O(!new)>(ot: Ot<S, O>, ops: seq<O>, log: Log<O>, b: nat, n: nat): (r: seq<O>)
    requires b <= n <= |log|
    ensures |r| == |ops|
    decreases n
  {
    if n == b then ops else TransformLists(ot, Through(ot, ops, log, b, n - 1), log[n - 1].ops).0
  }

  lemma {:induction false} ThroughHead<S(!new), O(!new)>(ot: Ot<S, O>, ops: seq<O>, log: Log<O>, b: nat, n: nat)
    requires b < n <= |log|
    ensures Through(ot, ops, log, b, n) == Through(ot, TransformLists(ot, ops, log[b].ops).0, log, b + 1, n)
    decreases n
  {
    if n == b + 1 {
      assert Through(ot, ops, log, b, b) == ops;
    } else {
      ThroughHead(ot, ops, log, b, n - 1);
    }
  }

  lemma {:induction false} ThroughJoin<S(!new), O(!new)>(ot: Ot<S, O>, ops: seq<O>, log: Log<O>, b: nat, m: nat, n: nat)
    requires b <= m <= n <= |log|
    ensures Through(ot, Through(ot, ops, log, b, m), log, m, n) == Through(ot, ops, log, b, n)
    decreases n
  {
    if m < n {
      ThroughJoin(ot, ops, log, b, m, n - 1);
    }
  }

  lemma {:induction false} ThroughApplies<S(!new), O(!new)>(ot: Ot<S, O>, s0: S, ops: seq<O>, log: Log<O>, b: nat, n: nat)
    requires Diamond(ot) && CanLog(ot, s0, log) && b <= n <= |log|
    requires CanAll(ot, StateAt(ot, s0, log, b), ops)
    ensures CanAll(ot, StateAt(ot, s0, log, n), Through(ot, ops, log, b, n))
    decreases n
  {
    if b < n {
      ThroughApplies(ot, s0, ops, log, b, n - 1);
      DiamondLists(ot, StateAt(ot, s0, log, n - 1), Through(ot, ops, log, b, n - 1), log[n - 1].ops);
    }
  }

  lemma {:induction false} LogGrows<S(!new), O(!new)>(ot: Ot<S, O>, s0: S, log: Log<O>, e: Entry<O>, n: nat)
    requires n <= |log|
    ensures StateAt(ot, s0, log + [e], n) == StateAt(ot, s0, log, n)
  {
    if n > 0 {
      LogGrows(ot, s0, log, e, n - 1);
    }
  }

  lemma {:induction false} ThroughGrows<S(!new), O(!new)>(ot: Ot<S, O>, ops: seq<O>, log: Log<O>, e: Entry<O>, b: nat, n: nat)
    requires b <= n <= |log|
    ensures Through(ot, ops, log + [e], b, n) == Through(ot, ops, log, b, n)
    decreases n
  {
    if b < n {
      ThroughGrows(ot, ops, log, e, b, n - 1);
    }
  }

  // ----- what holds for every client -----

  /** The editor shows the log up to the client's version, then its own operations. */
  ghost predicate Content<S(!new), O(!new)>(ot: Ot<S, O>, s0: S, log: Log<O>, c: Client<S, O>) {
    && c.version <= |log|
    && var seen := StateAt(ot, s0, log, c.version);
       && CanAll(ot, seen, c.outstanding)
       && CanAll(ot, ApplyAll(ot, seen, c.outstanding), c.pending)
       && c.editor == ApplyAll(ot, ApplyAll(ot, seen, c.outstanding), c.pending)
  }

  ghost predicate NoneBy<O>(log: Log<O>, id: nat, from: nat) {
    forall v :: from <= v < |log| ==> log[v].author != id
  }

  /** The client's request became entry `at`, which it has not reached yet. */
  ghost predicate Logged<S(!new), O(!new)>(ot: Ot<S, O>, log: Log<O>, id: nat, c: Client<S, O>, at: nat) {
    && c.version <= at < |log|
    && log[at].author == id
    && log[at].ops == Through(ot, c.outstanding, log, c.version, at)
    && forall v :: c.version <= v < |log| && v != at ==> log[v].author != id
  }

  /** The client's request is on its way to the server. */
  ghost predicate UnderWay<S(!new), O(!new)>(ot: Ot<S, O>, log: Log<O>, id: nat, c: Client<S, O>, inFlight: seq<Request<O>>) {
    && |inFlight| == 1
    && inFlight[0].baseVersion <= c.version <= |log|
    && Through(ot, inFlight[0].ops, log, inFlight[0].baseVersion, c.version) == c.outstanding
    && c.ackVersion.None?
    && NoneBy(log, id, c.version)
  }

  ghost predicate AwaitsAck<S(!new), O(!new)>(ot: Ot<S, O>, log: Log<O>, id: nat, p: Peer<S, O>, at: nat) {
    && p.inFlight == []
    && Logged(ot, log, id, p.client, at)
    && p.client.ackVersion == if at in p.delivered then Some(at) else None
  }

  ghost predicate Pipeline<S(!new), O(!new)>(ot: Ot<S, O>, log: Log<O>, id: nat, p: Peer<S, O>) {
    var c := p.client;
    match c.phase
    case Ready => c.outstanding == [] && c.pending == [] && c.ackVersion.None? && p.inFlight == [] && NoneBy(log, id, c.version)
    case Waiting => c.outstanding != [] && (UnderWay(ot, log, id, c, p.inFlight) || exists at :: AwaitsAck(ot, log, id, p, at))
  }

  /** Buffered notes are undigested entries of others, each at most once. */
  ghost predicate Buffered<S(!new), O(!new)>(log: Log<O>, id: nat, p: Peer<S, O>) {
    var c := p.client;
    && (forall i :: 0 <= i < |c.buffer| ==>
         && c.version <= c.buffer[i].version < |log|
         && c.buffer[i].version in p.delivered
         && c.buffer[i].ops == log[c.buffer[i].version].ops
         && log[c.buffer[i].version].author != id)
    && DistinctNotes(c.buffer)
  }

  ghost predicate DistinctNotes<O>(buffer: seq<Note<O>>) {
    forall i, j :: 0 <= i < j < |buffer| ==> buffer[i].version != buffer[j].version
  }

  predicate Holds<S, O>(c: Client<S, O>, v: nat) {
    c.ackVersion == Some(v) || exists i :: 0 <= i < |c.buffer| && c.buffer[i].version == v
  }

  /** A delivered version is behind the client, or held by it, or was refused. */
  ghost predicate Accounted<S(!new), O(!new)>(log: Log<O>, p: Peer<S, O>) {
    && (forall v :: v in p.delivered ==> v < |log|)
    && (forall v: nat :: v < p.client.version ==> v in p.delivered)
    && (forall v :: v in p.delivered && p.client.version <= v && v !in p.refused ==> Holds(p.client, v))
    && Missing(p)
  }

  /** A refused version was delivered, is lost to the client, and the client has not got past it. */
  ghost predicate Missing<S(!new), O(!new)>(p: Peer<S, O>) {
    forall v :: v in p.refused ==> v in p.delivered && p.client.version <= v && !Holds(p.client, v)
  }

  ghost predicate PeerInv<S(!new), O(!new)>(ot: Ot<S, O>, s0: S, log: Log<O>, id: nat, p: Peer<S, O>) {
    && Content(ot, s0, log, p.client)
    && Pipeline(ot, log, id, p)
    && Buffered(log, id, p)
    && Accounted(log, p)
  }

  /** Nothing the client holds is next in line. */
  ghost predicate Settled<S(!new), O(!new)>(c: Client<S, O>) {
    !Holds(c, c.version)
  }

  // ----- taking the next ack or note -----

  lemma {:induction false} NotesSplit<O(!new)>(buffer: seq<Note<O>>, version: nat)
    ensures forall n :: n in NotesAt(buffer, version) <==> n in buffer && n.version == version
    ensures forall n :: n in NotesNotAt(buffer, version) <==> n in buffer && n.version != version
  {
    if buffer != [] {
      NotesSplit(buffer[1..], version);
      assert forall n :: n in buffer <==> n == buffer[0] || n in buffer[1..];
    }
  }

  lemma {:induction false} NotesDistinct<O(!new)>(buffer: seq<Note<O>>, version: nat)
    requires DistinctNotes(buffer)
    ensures |NotesAt(buffer, version)| <= 1
    ensures DistinctNotes(NotesNotAt(buffer, version))
  {
    if buffer != [] {
      var rest := buffer[1..];
      assert forall i :: 0 <= i < |rest| ==> rest[i] == buffer[i + 1];
      NotesDistinct(rest, version);
      HeadIsAlone(buffer, version);
    }
  }

  lemma HeadIsAlone<O(!new)>(buffer: seq<Note<O>>, version: nat)
    requires DistinctNotes(buffer) && buffer != []
    ensures buffer[0].version == version ==> NotesAt(buffer[1..], version) == []
    ensures forall i :: 0 <= i < |NotesNotAt(buffer[1..], version)| ==>
      NotesNotAt(buffer[1..], version)[i].version != buffer[0].version
  {
    var rest := buffer[1..];
    NotesSplit(rest, version);
    forall n | n in rest ensures n.version != buffer[0].version {
      var k :| 0 <= k < |rest| && rest[k] == n;
      assert buffer[k + 1] == n;
    }
    var at, others := NotesAt(rest, version), NotesNotAt(rest, version);
    assert at != [] ==> at[0] in at;
    forall i | 0 <= i < |others| ensures others[i].version != buffer[0].version {
      assert others[i] in others;
    }
  }

  lemma NoteAlone<O(!new)>(buffer: seq<Note<O>>, note: Note<O>)
    requires DistinctNotes(buffer) && note in buffer
    ensures NotesAt(buffer, note.version) == [note]
  {
    NotesSplit(buffer, note.version);
    NotesDistinct(buffer, note.version);
    assert note in NotesAt(buffer, note.version);
  }

  // ----- one client's steps keep its invariant -----

  /** Consuming the ack: the request is now part of the log the client has seen. */
  lemma AckKeeps<S(!new), O(!new)>(ot: Ot<S, O>, s0: S, log: Log<O>, id: nat, p: Peer<S, O>)
    requires PeerInv(ot, s0, log, id, p) && p.client.ackVersion == Some(p.client.version)
    ensures var h := HandleAck(p.client.(version := p.client.version + 1, ackVersion := None));
      && h.Ok?
      && PeerInv(ot, s0, log, id, p.(client := h.value.0, inFlight := p.inFlight + h.value.1))
      && h.value.0.buffer == p.client.buffer && h.value.0.ackVersion.None?
  {
    var c := p.client;
    var at :| AwaitsAck(ot, log, id, p, at);
    assert at == c.version && Through(ot, c.outstanding, log, at, at) == c.outstanding;
    var h := HandleAck(c.(version := c.version + 1, ackVersion := None));
    var q := p.(client := h.value.0, inFlight := p.inFlight + h.value.1);
    forall i | 0 <= i < |c.buffer| ensures c.version + 1 <= c.buffer[i].version {
      assert log[c.buffer[i].version].author != id;
    }
    AckAccounted(log, p, q);
    if c.pending != [] {
      assert q.inFlight == [Request(c.version + 1, c.pending)];
      assert UnderWay(ot, log, id, q.client, q.inFlight);
    }
  }

  lemma AckAccounted<S(!new), O(!new)>(log: Log<O>, p: Peer<S, O>, q: Peer<S, O>)
    requires Accounted(log, p) && p.client.ackVersion == Some(p.client.version) && p.client.version in p.delivered
    requires q.delivered == p.delivered && q.refused == p.refused
    requires q.client.version == p.client.version + 1 && q.client.buffer == p.client.buffer && q.client.ackVersion.None?
    ensures Accounted(log, q)
  {
    forall v | v in q.delivered && q.client.version <= v && v !in q.refused ensures Holds(q.client, v) {
      assert Holds(p.client, v);
    }
    assert Holds(p.client, p.client.version);
    forall v | v in q.refused ensures q.client.version <= v && !Holds(q.client, v) {
      assert !Holds(p.client, v);
    }
  }

  /** Consuming a note: everything of the client's own is carried past it. */
  lemma NoteKeeps<S(!new), O(!new)>(ot: Ot<S, O>, s0: S, log: Log<O>, id: nat, p: Peer<S, O>, note: Note<O>)
    requires Diamond(ot) && CanLog(ot, s0, log) && PeerInv(ot, s0, log, id, p)
    requires p.client.ackVersion != Some(p.client.version)
    requires note in p.client.buffer && note.version == p.client.version
    ensures var rest := p.client.(buffer := NotesNotAt(p.client.buffer, p.client.version));
      var h := HandleRemote(ot, rest, note.ops);
      && NotesAt(p.client.buffer, p.client.version) == [note]
      && h.Ok?
      && PeerInv(ot, s0, log, id, p.(client := h.value.(version := p.client.version + 1)))
      && h.value.buffer == rest.buffer && h.value.ackVersion == p.client.ackVersion
  {
    var c := p.client;
    hide *;
    NextNote(ot, s0, log, id, p, note);
    NoteAlone(c.buffer, note);
    NoteTaken(ot, c, note.ops);
    var h := HandleRemote(ot, c.(buffer := NotesNotAt(c.buffer, c.version)), note.ops);
    var q := p.(client := h.value.(version := c.version + 1));
    NoteContent(ot, s0, log, c, q.client);
    NotePipeline(ot, log, id, p, q);
    NoteBuffered(log, id, p, q);
    NoteAccounted(log, p, q);
    FourParts(ot, s0, log, id, q);
  }

  lemma FourParts<S(!new), O(!new)>(ot: Ot<S, O>, s0: S, log: Log<O>, id: nat, p: Peer<S, O>)
    requires Content(ot, s0, log, p.client) && Pipeline(ot, log, id, p) && Buffered(log, id, p) && Accounted(log, p)
    ensures PeerInv(ot, s0, log, id, p)
  {
  }

  lemma NoteTaken<S(!new), O(!new)>(ot: Ot<S, O>, c: Client<S, O>, ops: seq<O>)
    requires c.pending != [] ==> c.outstanding != []
    ensures var h := HandleRemote(ot, c.(buffer := NotesNotAt(c.buffer, c.version)), ops);
      var r := TransformLists(ot, c.outstanding, ops);
      var q := TransformLists(ot, c.pending, r.1);
      && h.Ok? && h.value.buffer == NotesNotAt(c.buffer, c.version)
      && h.value.ackVersion == c.ackVersion && h.value.phase == c.phase
      && h.value.outstanding == r.0 && h.value.pending == q.0 && h.value.editor == ApplyAll(ot, c.editor, q.1)
  {
    hide TransformLists, ApplyAll, NotesNotAt;
  }

  /** A buffered note that is next in line is the log's next entry, and another client's. */
  lemma NextNote<S(!new), O(!new)>(ot: Ot<S, O>, s0: S, log: Log<O>, id: nat, p: Peer<S, O>, note: Note<O>)
    requires PeerInv(ot, s0, log, id, p) && note in p.client.buffer && note.version == p.client.version
    ensures note.version < |log| && note.ops == log[note.version].ops && log[note.version].author != id
    ensures note.version in p.delivered && Holds(p.client, note.version) && DistinctNotes(p.client.buffer)
    ensures Content(ot, s0, log, p.client) && Pipeline(ot, log, id, p) && Buffered(log, id, p) && Accounted(log, p)
    ensures p.client.pending != [] ==> p.client.outstanding != []
  {
    var k :| 0 <= k < |p.client.buffer| && p.client.buffer[k] == note;
  }

  lemma NoteContent<S(!new), O(!new)>(ot: Ot<S, O>, s0: S, log: Log<O>, c: Client<S, O>, d: Client<S, O>)
    requires Diamond(ot) && CanLog(ot, s0, log) && Content(ot, s0, log, c) && c.version < |log|
    requires d.version == c.version + 1
    requires var r := TransformLists(ot, c.outstanding, log[c.version].ops);
      var q := TransformLists(ot, c.pending, r.1);
      d.outstanding == r.0 && d.pending == q.0 && d.editor == ApplyAll(ot, c.editor, q.1)
    ensures Content(ot, s0, log, d)
  {
    var seen, ops := StateAt(ot, s0, log, c.version), log[c.version].ops;
    var r := TransformLists(ot, c.outstanding, ops);
    DiamondLists(ot, seen, c.outstanding, ops);
    DiamondLists(ot, ApplyAll(ot, seen, c.outstanding), c.pending, r.1);
    assert StateAt(ot, s0, log, d.version) == ApplyAll(ot, seen, ops);
  }

  lemma NotePipeline<S(!new), O(!new)>(ot: Ot<S, O>, log: Log<O>, id: nat, p: Peer<S, O>, q: Peer<S, O>)
    requires Pipeline(ot, log, id, p) && p.client.version < |log| && log[p.client.version].author != id
    requires q.inFlight == p.inFlight && q.delivered == p.delivered
    requires q.client.phase == p.client.phase && q.client.ackVersion == p.client.ackVersion
    requires q.client.version == p.client.version + 1
    requires q.client.outstanding == TransformLists(ot, p.client.outstanding, log[p.client.version].ops).0
    requires |q.client.pending| == |p.client.pending|
    ensures Pipeline(ot, log, id, q)
  {
    var c, d := p.client, q.client;
    if c.phase == Waiting {
      if UnderWay(ot, log, id, c, p.inFlight) {
        assert UnderWay(ot, log, id, d, q.inFlight);
      } else {
        var at :| AwaitsAck(ot, log, id, p, at);
        ThroughHead(ot, c.outstanding, log, c.version, at);
        assert AwaitsAck(ot, log, id, q, at);
      }
    }
  }

  lemma NoteBuffered<S(!new), O(!new)>(log: Log<O>, id: nat, p: Peer<S, O>, q: Peer<S, O>)
    requires Buffered(log, id, p)
    requires q.delivered == p.delivered && q.client.version == p.client.version + 1
    requires q.client.buffer == NotesNotAt(p.client.buffer, p.client.version)
    ensures Buffered(log, id, q)
  {
    var b, d := p.client.buffer, q.client.buffer;
    NotesSplit(b, p.client.version);
    NotesDistinct(b, p.client.version);
    forall i | 0 <= i < |d|
      ensures q.client.version <= d[i].version < |log| && d[i].version in p.delivered
      ensures d[i].ops == log[d[i].version].ops && log[d[i].version].author != id
    {
      assert d[i] in d;
      var k :| 0 <= k < |b| && b[k] == d[i];
    }
  }

  lemma NoteAccounted<S(!new), O(!new)>(log: Log<O>, p: Peer<S, O>, q: Peer<S, O>)
    requires Accounted(log, p) && p.client.version in p.delivered
    requires q.delivered == p.delivered && q.refused == p.refused
    requires q.client.version == p.client.version + 1 && q.client.ackVersion == p.client.ackVersion
    requires q.client.buffer == NotesNotAt(p.client.buffer, p.client.version) && Holds(p.client, p.client.version)
    ensures Accounted(log, q)
  {
    hide Holds, NotesNotAt;
    forall v | v in q.refused ensures q.client.version <= v && !Holds(q.client, v) {
      assert !Holds(p.client, v);
      StillHeld(p.client, q.client, v);
    }
    forall v | v in q.delivered && q.client.version <= v && v !in q.refused ensures Holds(q.client, v) {
      assert Holds(p.client, v);
      StillHeld(p.client, q.client, v);
    }
  }

  /** Consuming a note changes nothing about what else is held. */
  lemma StillHeld<S(!new), O(!new)>(c: Client<S, O>, d: Client<S, O>, v: nat)
    requires d.ackVersion == c.ackVersion && d.buffer == NotesNotAt(c.buffer, c.version) && v != c.version
    ensures Holds(d, v) <==> Holds(c, v)
  {
    NotesSplit(c.buffer, c.version);
    if Holds(c, v) && c.ackVersion != Some(v) {
      var i :| 0 <= i < |c.buffer| && c.buffer[i].version == v;
      assert c.buffer[i] in d.buffer;
    }
    if Holds(d, v) && d.ackVersion != Some(v) {
      var i :| 0 <= i < |d.buffer| && d.buffer[i].version == v;
      assert d.buffer[i] in c.buffer;
    }
  }

  lemma AdvanceUnfoldNote<S(!new), O(!new)>(ot: Ot<S, O>, c: Client<S, O>, note: Note<O>)
    requires c.ackVersion != Some(c.version) && NotesAt(c.buffer, c.version) == [note]
    requires HandleRemote(ot, c.(buffer := NotesNotAt(c.buffer, c.version)), note.ops).Ok?
    ensures var h := HandleRemote(ot, c.(buffer := NotesNotAt(c.buffer, c.version)), note.ops);
      && |h.value.buffer| + AckCount(h.value.(version := c.version + 1)) < |c.buffer| + AckCount(c)
      && Advance(ot, c) == Advance(ot, h.value.(version := c.version + 1))
  {
  }

  /** What `advanceIfReady` is to achieve for a client. */
  ghost predicate Advances<S(!new), O(!new)>(ot: Ot<S, O>, s0: S, log: Log<O>, id: nat, p: Peer<S, O>, o: Outcome<S, O>) {
    && o.Ok?
    && PeerFine(ot, s0, log, id, p.(client := o.value.0, inFlight := p.inFlight + o.value.1))
  }

  ghost predicate PeerFine<S(!new), O(!new)>(ot: Ot<S, O>, s0: S, log: Log<O>, id: nat, p: Peer<S, O>) {
    PeerInv(ot, s0, log, id, p) && Settled(p.client)
  }

  lemma AdvancesThen<S(!new), O(!new)>(ot: Ot<S, O>, s0: S, log: Log<O>, id: nat, p: Peer<S, O>, q: Peer<S, O>,
                                       sent: seq<Request<O>>, o: Outcome<S, O>)
    requires q.delivered == p.delivered && q.refused == p.refused && q.inFlight == p.inFlight + sent
    requires Advances(ot, s0, log, id, q, o)
    ensures Advances(ot, s0, log, id, p, Then(sent, o))
  {
    var r := Then(sent, o);
    assert q.inFlight + o.value.1 == p.inFlight + r.value.1;
    assert q.(client := o.value.0, inFlight := q.inFlight + o.value.1)
        == p.(client := r.value.0, inFlight := p.inFlight + r.value.1);
  }

  /** `advanceIfReady` throws nothing, keeps the invariant and leaves nothing that is next in line. */
  lemma {:induction false} AdvanceKeeps<S(!new), O(!new)>(ot: Ot<S, O>, s0: S, log: Log<O>, id: nat, p: Peer<S, O>)
    requires Diamond(ot) && CanLog(ot, s0, log) && PeerInv(ot, s0, log, id, p)
    ensures Advances(ot, s0, log, id, p, Advance(ot, p.client))
    decreases |p.client.buffer| + AckCount(p.client), 1
  {
    var c := p.client;
    if c.ackVersion == Some(c.version) {
      AckKeeps(ot, s0, log, id, p);
      var h := HandleAck(c.(version := c.version + 1, ackVersion := None));
      var q := p.(client := h.value.0, inFlight := p.inFlight + h.value.1);
      AdvanceTakesAck(ot, c);
      AdvanceKeeps(ot, s0, log, id, q);
      AdvancesThen(ot, s0, log, id, p, q, h.value.1, Advance(ot, q.client));
    } else if exists i :: 0 <= i < |c.buffer| && c.buffer[i].version == c.version {
      var i :| 0 <= i < |c.buffer| && c.buffer[i].version == c.version;
      AdvancePastNoteKeeps(ot, s0, log, id, p, c.buffer[i]);
    } else {
      NothingNext(ot, s0, log, id, p);
    }
  }

  lemma {:induction false} AdvancePastNoteKeeps<S(!new), O(!new)>(ot: Ot<S, O>, s0: S, log: Log<O>, id: nat, p: Peer<S, O>,
                                                                  note: Note<O>)
    requires Diamond(ot) && CanLog(ot, s0, log) && PeerInv(ot, s0, log, id, p)
    requires p.client.ackVersion != Some(p.client.version)
    requires note in p.client.buffer && note.version == p.client.version
    ensures Advances(ot, s0, log, id, p, Advance(ot, p.client))
    decreases |p.client.buffer| + AckCount(p.client), 0
  {
    var q := NextPeer(ot, s0, log, id, p, note);
    AdvanceKeeps(ot, s0, log, id, q);
    assert p.(client := q.client) == q;
    AdvancesAlike(ot, s0, log, id, p, q.client, Advance(ot, q.client));
  }

  /** The peer once the note is consumed: advancing goes on from there. */
  lemma NextPeer<S(!new), O(!new)>(ot: Ot<S, O>, s0: S, log: Log<O>, id: nat, p: Peer<S, O>, note: Note<O>)
    returns (q: Peer<S, O>)
    requires Diamond(ot) && CanLog(ot, s0, log) && PeerInv(ot, s0, log, id, p)
    requires p.client.ackVersion != Some(p.client.version)
    requires note in p.client.buffer && note.version == p.client.version
    ensures PeerInv(ot, s0, log, id, q) && q == p.(client := q.client)
    ensures Advance(ot, p.client) == Advance(ot, q.client)
    ensures |q.client.buffer| + AckCount(q.client) < |p.client.buffer| + AckCount(p.client)
  {
    var c := p.client;
    hide *;
    NoteKeeps(ot, s0, log, id, p, note);
    var h := HandleRemote(ot, c.(buffer := NotesNotAt(c.buffer, c.version)), note.ops);
    q := p.(client := h.value.(version := c.version + 1));
    AdvanceUnfoldNote(ot, c, note);
  }

  lemma AdvancesAlike<S(!new), O(!new)>(ot: Ot<S, O>, s0: S, log: Log<O>, id: nat, p: Peer<S, O>, d: Client<S, O>,
                                        o: Outcome<S, O>)
    requires Advances(ot, s0, log, id, p.(client := d), o)
    ensures Advances(ot, s0, log, id, p, o)
  {
    assert p.(client := d).(client := o.value.0, inFlight := p.inFlight + o.value.1)
        == p.(client := o.value.0, inFlight := p.inFlight + o.value.1);
  }

  lemma {:induction false} NotesNotAtAll<O(!new)>(buffer: seq<Note<O>>, version: nat)
    requires forall i :: 0 <= i < |buffer| ==> buffer[i].version != version
    ensures NotesAt(buffer, version) == [] && NotesNotAt(buffer, version) == buffer
  {
    if buffer != [] {
      assert forall i :: 0 <= i < |buffer[1..]| ==> buffer[1..][i] == buffer[i + 1];
      NotesNotAtAll(buffer[1..], version);
      assert [buffer[0]] + buffer[1..] == buffer;
    }
  }

  lemma NothingNext<S(!new), O(!new)>(ot: Ot<S, O>, s0: S, log: Log<O>, id: nat, p: Peer<S, O>)
    requires PeerInv(ot, s0, log, id, p) && p.client.ackVersion != Some(p.client.version)
    requires !exists i :: 0 <= i < |p.client.buffer| && p.client.buffer[i].version == p.client.version
    ensures Advance(ot, p.client) == Ok((p.client, []))
    ensures p.(client := p.client, inFlight := p.inFlight + []) == p
    ensures Settled(p.client)
  {
    NotesNotAtAll(p.client.buffer, p.client.version);
  }

  // ----- the steps of the system -----

  datatype Step<O> =
    | Join(id: nat)                 // a client loads the content as of now
    | Local(id: nat, op: O)         // its user edits
    | Receive(id: nat)              // the server takes its request
    | Deliver(id: nat, version: nat)  // the network brings it an ack or a note

  ghost predicate Enabled<S(!new), O(!new)>(ot: Ot<S, O>, s: System<S, O>, step: Step<O>) {
    match step
    case Join(id) => id !in s.peers
    case Local(id, op) => id in s.peers && ot.can(s.peers[id].client.editor, op)
    case Receive(id) => id in s.peers && s.peers[id].inFlight != [] && s.peers[id].inFlight[0].baseVersion <= |s.log|
    case Deliver(id, v) => id in s.peers && v < |s.log| && v !in s.peers[id].delivered
  }

  function Versions(n: nat): (r: set<nat>)
    ensures forall v: nat :: v in r <==> v < n
  {
    if n == 0 then {} else Versions(n - 1) + {n - 1}
  }

  /** The server's answer to a request: past everything it missed, and into the log. */
  function Accept<S(!new), O(!new)>(ot: Ot<S, O>, log: Log<O>, id: nat, r: Request<O>): Entry<O>
    requires r.baseVersion <= |log|
  {
    Entry(id, Through(ot, r.ops, log, r.baseVersion, |log|))
  }

  /** What a delivery does to one client; None if a handler threw anything but the duplicate guard. */
  function Delivered<S(!new), O(!new)>(ot: Ot<S, O>, log: Log<O>, id: nat, p: Peer<S, O>, v: nat): Option<Peer<S, O>>
    requires v < |log|
  {
    var q := p.(delivered := p.delivered + {v});
    var o := if log[v].author == id then OnAck(ot, p.client, v) else OnChange(ot, p.client, Note(v, log[v].ops));
    match o
    case Ok((c, sent)) => Some(q.(client := c, inFlight := p.inFlight + sent))
    case Err(e) => if e.MultipleChangesInVersion? then Some(q.(refused := p.refused + {v})) else None
  }

  /** The next state; None if a handler threw an error that loses more than a note. */
  function Next<S(!new), O(!new)>(ot: Ot<S, O>, s0: S, s: System<S, O>, step: Step<O>): Option<System<S, O>>
    requires Enabled(ot, s, step)
  {
    match step
    case Join(id) =>
      var n := |s.log|;
      var client := Client(n, Ready, None, [], [], [], StateAt(ot, s0, s.log, n));
      Some(s.(peers := s.peers[id := Peer(client, [], Versions(n), {})]))
    case Local(id, op) =>
      var p := s.peers[id];
      var h := HandleLocal(ot, p.client, op);
      Some(s.(peers := s.peers[id := p.(client := h.0, inFlight := p.inFlight + h.1)]))
    case Receive(id) =>
      var p := s.peers[id];
      Some(System(s.log + [Accept(ot, s.log, id, p.inFlight[0])],
                  s.peers[id := p.(inFlight := p.inFlight[1..])]))
    case Deliver(id, v) =>
      var d := Delivered(ot, s.log, id, s.peers[id], v);
      if d.None? then None else Some(s.(peers := s.peers[id := d.value]))
  }

  ghost predicate Inv<S(!new), O(!new)>(ot: Ot<S, O>, s0: S, s: System<S, O>) {
    && CanLog(ot, s0, s.log)
    && (forall id :: id in s.peers ==> PeerFine(ot, s0, s.log, id, s.peers[id]))
    && (forall v :: 0 <= v < |s.log| ==> s.log[v].author in s.peers)
  }

  lemma LocalKeeps<S(!new), O(!new)>(ot: Ot<S, O>, s0: S, log: Log<O>, id: nat, p: Peer<S, O>, op: O)
    requires PeerFine(ot, s0, log, id, p) && ot.can(p.client.editor, op)
    ensures var h := HandleLocal(ot, p.client, op);
      PeerFine(ot, s0, log, id, p.(client := h.0, inFlight := p.inFlight + h.1))
  {
    var c := p.client;
    var seen := StateAt(ot, s0, log, c.version);
    var h := HandleLocal(ot, c, op);
    var q := p.(client := h.0, inFlight := p.inFlight + h.1);
    assert ApplyAll(ot, c.editor, [op]) == ot.apply(c.editor, op) && CanAll(ot, c.editor, [op]);
    if c.phase == Ready {
      assert c.outstanding + [op] == [op];
      assert q.inFlight == [Request(c.version, [op])];
      assert UnderWay(ot, log, id, q.client, q.inFlight);
    } else {
      ApplyAllConcat(ot, ApplyAll(ot, seen, c.outstanding), c.pending, [op]);
      assert q.inFlight == p.inFlight;
      if !UnderWay(ot, log, id, c, p.inFlight) {
        var at :| AwaitsAck(ot, log, id, p, at);
        assert AwaitsAck(ot, log, id, q, at);
      }
    }
    assert forall v :: Holds(q.client, v) == Holds(c, v);
  }

  /** Another client's entry does not disturb this one. */
  lemma GrowKeeps<S(!new), O(!new)>(ot: Ot<S, O>, s0: S, log: Log<O>, id: nat, p: Peer<S, O>, e: Entry<O>)
    requires PeerInv(ot, s0, log, id, p) && e.author != id
    ensures PeerInv(ot, s0, log + [e], id, p)
  {
    var c := p.client;
    LogGrows(ot, s0, log, e, c.version);
    if c.phase == Waiting {
      if UnderWay(ot, log, id, c, p.inFlight) {
        ThroughGrows(ot, p.inFlight[0].ops, log, e, p.inFlight[0].baseVersion, c.version);
        assert UnderWay(ot, log + [e], id, c, p.inFlight);
      } else {
        var at :| AwaitsAck(ot, log, id, p, at);
        ThroughGrows(ot, c.outstanding, log, e, c.version, at);
        assert AwaitsAck(ot, log + [e], id, p, at);
      }
    }
  }

  /** The server takes this client's request: what it appends is what the client will arrive at. */
  lemma ReceiveKeeps<S(!new), O(!new)>(ot: Ot<S, O>, s0: S, log: Log<O>, id: nat, p: Peer<S, O>)
    requires Diamond(ot) && CanLog(ot, s0, log) && PeerInv(ot, s0, log, id, p) && p.inFlight != []
    ensures p.inFlight[0].baseVersion <= |log|
    ensures var e := Accept(ot, log, id, p.inFlight[0]);
      && CanAll(ot, StateAt(ot, s0, log, |log|), e.ops)
      && PeerInv(ot, s0, log + [e], id, p.(inFlight := p.inFlight[1..]))
  {
    var c, r := p.client, p.inFlight[0];
    assert UnderWay(ot, log, id, c, p.inFlight);
    var e := Accept(ot, log, id, r);
    ThroughJoin(ot, r.ops, log, r.baseVersion, c.version, |log|);
    ThroughApplies(ot, s0, c.outstanding, log, c.version, |log|);
    LogGrows(ot, s0, log, e, c.version);
    ThroughGrows(ot, c.outstanding, log, e, c.version, |log|);
    var q := p.(inFlight := p.inFlight[1..]);
    assert AwaitsAck(ot, log + [e], id, q, |log|);
  }

  lemma CanLogGrows<S(!new), O(!new)>(ot: Ot<S, O>, s0: S, log: Log<O>, e: Entry<O>)
    requires CanLog(ot, s0, log) && CanAll(ot, StateAt(ot, s0, log, |log|), e.ops)
    ensures CanLog(ot, s0, log + [e])
  {
    forall n | 0 <= n < |log + [e]| ensures CanAll(ot, StateAt(ot, s0, log + [e], n), (log + [e])[n].ops) {
      LogGrows(ot, s0, log, e, n);
    }
  }

  lemma DeliverAckKeeps<S(!new), O(!new)>(ot: Ot<S, O>, s0: S, log: Log<O>, id: nat, p: Peer<S, O>, v: nat)
    requires Diamond(ot) && CanLog(ot, s0, log) && PeerInv(ot, s0, log, id, p)
    requires v < |log| && v !in p.delivered && log[v].author == id
    ensures Delivered(ot, log, id, p, v).Some?
    ensures var q := Delivered(ot, log, id, p, v).value; PeerFine(ot, s0, log, id, q) && q.refused == p.refused
  {
    var c := p.client;
    assert c.version <= v;
    var at :| AwaitsAck(ot, log, id, p, at);
    assert at == v;
    var q := p.(delivered := p.delivered + {v}, client := c.(ackVersion := Some(v)));
    assert AwaitsAck(ot, log, id, q, v);
    forall w | w in q.delivered && q.client.version <= w && w !in q.refused ensures Holds(q.client, w) {
      assert w != v ==> Holds(c, w);
    }
    forall w | w in q.refused ensures !Holds(q.client, w) {
      assert w in p.delivered && !Holds(c, w);
    }
    AdvanceKeeps(ot, s0, log, id, q);
  }

  lemma DeliverNoteKeeps<S(!new), O(!new)>(ot: Ot<S, O>, s0: S, log: Log<O>, id: nat, p: Peer<S, O>, v: nat)
    requires Diamond(ot) && CanLog(ot, s0, log) && PeerInv(ot, s0, log, id, p) && Settled(p.client)
    requires v < |log| && v !in p.delivered && log[v].author != id
    ensures Delivered(ot, log, id, p, v).Some?
    ensures var q := Delivered(ot, log, id, p, v).value;
      PeerFine(ot, s0, log, id, q) && q.refused == if DuplicateGuard(p.client.buffer, v) then p.refused + {v} else p.refused
  {
    var c, note := p.client, Note(v, log[v].ops);
    assert c.version <= v;
    NotYetHeld(ot, log, id, p, v);
    if DuplicateGuard(c.buffer, v) {
      var q := p.(delivered := p.delivered + {v}, refused := p.refused + {v});
      DeliveredElsewhere(ot, log, id, p, q);
    } else {
      var q := p.(delivered := p.delivered + {v}, client := c.(buffer := c.buffer + [note]));
      DeliveredElsewhere(ot, log, id, p, q);
      NoteArrives(log, id, p, q, v);
      AdvanceKeeps(ot, s0, log, id, q);
    }
  }

  /** A client holds only what was delivered to it. */
  lemma NotYetHeld<S(!new), O(!new)>(ot: Ot<S, O>, log: Log<O>, id: nat, p: Peer<S, O>, v: nat)
    requires Pipeline(ot, log, id, p) && Buffered(log, id, p) && v !in p.delivered
    ensures !Holds(p.client, v)
  {
    var c := p.client;
    if c.phase == Waiting && !UnderWay(ot, log, id, c, p.inFlight) {
      var at :| AwaitsAck(ot, log, id, p, at);
    }
  }

  /** A note changes nothing about the client's own request. */
  lemma DeliveredElsewhere<S(!new), O(!new)>(ot: Ot<S, O>, log: Log<O>, id: nat, p: Peer<S, O>, q: Peer<S, O>)
    requires Pipeline(ot, log, id, p) && q.inFlight == p.inFlight
    requires q.client.(buffer := p.client.buffer) == p.client
    requires p.delivered <= q.delivered && forall v :: v in q.delivered && v !in p.delivered ==> v < |log| && log[v].author != id
    ensures Pipeline(ot, log, id, q)
  {
    var c := p.client;
    if c.phase == Waiting {
      if UnderWay(ot, log, id, c, p.inFlight) {
        assert UnderWay(ot, log, id, q.client, q.inFlight);
      } else {
        var at :| AwaitsAck(ot, log, id, p, at);
        assert AwaitsAck(ot, log, id, q, at);
      }
    }
  }

  lemma NoteArrives<S(!new), O(!new)>(log: Log<O>, id: nat, p: Peer<S, O>, q: Peer<S, O>, v: nat)
    requires Buffered(log, id, p) && Accounted(log, p)
    requires v < |log| && v !in p.delivered && log[v].author != id
    requires q == p.(delivered := p.delivered + {v}, client := p.client.(buffer := p.client.buffer + [Note(v, log[v].ops)]))
    ensures Buffered(log, id, q) && Accounted(log, q)
  {
    var b, d := p.client.buffer, q.client.buffer;
    forall w | w in q.refused ensures !Holds(q.client, w) {
      assert w != v && !Holds(p.client, w);
    }
    forall w | w in q.delivered && q.client.version <= w && w !in q.refused ensures Holds(q.client, w) {
      if w == v {
        assert d[|b|].version == v;
      } else {
        assert Holds(p.client, w);
        if p.client.ackVersion != Some(w) {
          var i :| 0 <= i < |b| && b[i].version == w;
          assert d[i].version == w;
        }
      }
    }
  }

  lemma NextKeepsPeers<S(!new), O(!new)>(ot: Ot<S, O>, s0: S, s: System<S, O>, id: nat)
    requires Diamond(ot) && Inv(ot, s0, s) && Enabled(ot, s, Receive(id))
    ensures Inv(ot, s0, Next(ot, s0, s, Receive(id)).value)
  {
    var p := s.peers[id];
    ReceiveKeeps(ot, s0, s.log, id, p);
    var e := Accept(ot, s.log, id, p.inFlight[0]);
    CanLogGrows(ot, s0, s.log, e);
    var t := Next(ot, s0, s, Receive(id)).value;
    forall other | other in t.peers
      ensures PeerFine(ot, s0, t.log, other, t.peers[other])
    {
      if other != id {
        GrowKeeps(ot, s0, s.log, other, s.peers[other], e);
      }
    }
  }

  lemma JoinKeeps<S(!new), O(!new)>(ot: Ot<S, O>, s0: S, s: System<S, O>, id: nat)
    requires Inv(ot, s0, s) && Enabled(ot, s, Join(id))
    ensures Inv(ot, s0, Next(ot, s0, s, Join(id)).value)
  {
    var t := Next(ot, s0, s, Join(id)).value;
    assert PeerFine(ot, s0, t.log, id, t.peers[id]);
  }

  lemma DeliverKeeps<S(!new), O(!new)>(ot: Ot<S, O>, s0: S, s: System<S, O>, id: nat, v: nat)
    requires Diamond(ot) && Inv(ot, s0, s) && Enabled(ot, s, Deliver(id, v))
    ensures Next(ot, s0, s, Deliver(id, v)).Some? && Inv(ot, s0, Next(ot, s0, s, Deliver(id, v)).value)
  {
    if s.log[v].author == id {
      DeliverAckKeeps(ot, s0, s.log, id, s.peers[id], v);
    } else {
      DeliverNoteKeeps(ot, s0, s.log, id, s.peers[id], v);
    }
    InvReplaced(ot, s0, s, id, Delivered(ot, s.log, id, s.peers[id], v).value);
  }

  lemma InvReplaced<S(!new), O(!new)>(ot: Ot<S, O>, s0: S, s: System<S, O>, id: nat, p: Peer<S, O>)
    requires Inv(ot, s0, s) && id in s.peers && PeerFine(ot, s0, s.log, id, p)
    ensures Inv(ot, s0, s.(peers := s.peers[id := p]))
  {
    var peers := s.peers[id := p];
    forall other | other in peers ensures PeerFine(ot, s0, s.log, other, peers[other]) {
      assert other != id ==> PeerFine(ot, s0, s.log, other, s.peers[other]);
    }
  }

  /** Every step keeps the invariant, and no handler throws anything but the duplicate guard. */
  lemma NextKeeps<S(!new), O(!new)>(ot: Ot<S, O>, s0: S, s: System<S, O>, step: Step<O>)
    requires Diamond(ot) && Inv(ot, s0, s) && Enabled(ot, s, step)
    ensures Next(ot, s0, s, step).Some? && Inv(ot, s0, Next(ot, s0, s, step).value)
  {
    match step {
      case Join(id) =>
        JoinKeeps(ot, s0, s, id);
      case Local(id, op) =>
        var p := s.peers[id];
        LocalKeeps(ot, s0, s.log, id, p, op);
        var h := HandleLocal(ot, p.client, op);
        InvReplaced(ot, s0, s, id, p.(client := h.0, inFlight := p.inFlight + h.1));
      case Receive(id) =>
        NextKeepsPeers(ot, s0, s, id);
      case Deliver(id, v) =>
        DeliverKeeps(ot, s0, s, id, v);
    }
  }

  /** s is what a run of these steps from the empty system leads to. */
  ghost predicate Reaches<S(!new), O(!new)>(ot: Ot<S, O>, s0: S, steps: seq<Step<O>>, s: System<S, O>) {
    if steps == [] then s == System([], map[])
    else exists before: System<S, O> ::
      Reaches(ot, s0, Front(steps), before) && Enabled(ot, before, Last(steps))
      && Next(ot, s0, before, Last(steps)) == Some(s)
  }

  lemma {:induction false} ReachableInv<S(!new), O(!new)>(ot: Ot<S, O>, s0: S, steps: seq<Step<O>>, s: System<S, O>)
    requires Diamond(ot) && Reaches(ot, s0, steps, s)
    ensures Inv(ot, s0, s)
    decreases |steps|
  {
    if steps != [] {
      var before: System<S, O> :| Reaches(ot, s0, Front(steps), before) && Enabled(ot, before, Last(steps))
        && Next(ot, s0, before, Last(steps)) == Some(s);
      ReachableInv(ot, s0, Front(steps), before);
      NextKeeps(ot, s0, before, Last(steps));
    }
  }

  /**
    In every reachable state a client's editor shows the log up to its version,
    followed by its outstanding and then its pending operations. A READY client
    that has consumed the whole log shows what the server has.
  */
  lemma EditorsFollowTheLog<S(!new), O(!new)>(ot: Ot<S, O>, s0: S, steps: seq<Step<O>>, s: System<S, O>, id: nat)
    requires Diamond(ot) && Reaches(ot, s0, steps, s) && id in s.peers
    ensures var c := s.peers[id].client;
      && c.version <= |s.log|
      && c.editor == ApplyAll(ot, ApplyAll(ot, StateAt(ot, s0, s.log, c.version), c.outstanding), c.pending)
      && (c.phase == Ready && c.version == |s.log| ==> c.editor == StateAt(ot, s0, s.log, |s.log|))
  {
    ReachableInv(ot, s0, steps, s);
    assert PeerFine(ot, s0, s.log, id, s.peers[id]);
  }

  /**
    Convergence: once everything in the log has reached a client and nothing of
    its own is under way, it is at the end of the log exactly when it refused no
    note; it is then READY and shows exactly the server's content.
  */
  lemma QuietClientsConverge<S(!new), O(!new)>(ot: Ot<S, O>, s0: S, steps: seq<Step<O>>, s: System<S, O>, id: nat)
    requires Diamond(ot) && Reaches(ot, s0, steps, s) && id in s.peers
    requires var p := s.peers[id]; p.inFlight == [] && p.delivered == Versions(|s.log|)
    ensures var p := s.peers[id];
      && (p.client.version == |s.log| <==> p.refused == {})
      && (p.refused == {} ==> p.client.phase == Ready && p.client.editor == StateAt(ot, s0, s.log, |s.log|))
  {
    ReachableInv(ot, s0, steps, s);
    var p := s.peers[id];
    assert PeerFine(ot, s0, s.log, id, p);
    assert p.client.version < |s.log| ==> p.client.version in p.delivered;
    if p.client.version == |s.log| {
      assert forall v :: v in p.refused ==> p.client.version <= v < |s.log|;
      assert forall at :: !AwaitsAck(ot, s.log, id, p, at);
    }
  }

  /** Exactly when a note is refused: its version is smaller than the number of notes waiting. */
  lemma RefusedExactly<S(!new), O(!new)>(ot: Ot<S, O>, s0: S, steps: seq<Step<O>>, s: System<S, O>, id: nat, v: nat)
    requires Diamond(ot) && Reaches(ot, s0, steps, s) && Enabled(ot, s, Deliver(id, v)) && s.log[v].author != id
    ensures Next(ot, s0, s, Deliver(id, v)).Some?
    ensures v in Next(ot, s0, s, Deliver(id, v)).value.peers[id].refused
       <==> v in s.peers[id].refused || v < |s.peers[id].client.buffer|
  {
    ReachableInv(ot, s0, steps, s);
    NextKeeps(ot, s0, s, Deliver(id, v));
    var p := s.peers[id];
    assert PeerFine(ot, s0, s.log, id, p);
    RefusedNote(ot, s0, s.log, id, p, v);
  }

  lemma RefusedNote<S(!new), O(!new)>(ot: Ot<S, O>, s0: S, log: Log<O>, id: nat, p: Peer<S, O>, v: nat)
    requires Diamond(ot) && CanLog(ot, s0, log) && PeerFine(ot, s0, log, id, p)
    requires v < |log| && v !in p.delivered && log[v].author != id
    ensures Delivered(ot, log, id, p, v).Some?
    ensures Delivered(ot, log, id, p, v).value.refused == if v < |p.client.buffer| then p.refused + {v} else p.refused
  {
    DeliverNoteKeeps(ot, s0, log, id, p, v);
    var c := p.client;
    forall i | 0 <= i < |c.buffer| ensures c.buffer[i].version != 0 {
      assert Holds(c, c.buffer[i].version);
    }
    GuardFires(c.buffer, v);
    hide Delivered;
  }

  lemma GuardFires<O(!new)>(buffer: seq<Note<O>>, version: nat)
    requires forall i :: 0 <= i < |buffer| ==> buffer[i].version != 0
    ensures DuplicateGuard(buffer, version) <==> version < |buffer|
  {
    assert version < |buffer| ==> buffer[version].version != 0;
  }
}
