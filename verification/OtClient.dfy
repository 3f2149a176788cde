/**
  The operational transformation client (overleaf-editor-core: ot_client.js).

  The client's state is a value; each message handler is a function on it. The
  class at the end is the source's object, whose methods are proved to follow
  these functions.
*/
module OtClients {
  import opened Common
  import opened OtLists

  datatype Phase = Ready | Waiting

  /** A change note: the version a remote change applies to, and its operations. */
  datatype Note<O> = Note(version: nat, ops: seq<O>)

  datatype Request<O> = Request(baseVersion: nat, ops: seq<O>)

  datatype ClientError =
    | AckWithoutOutstanding
    | AckInWrongState
    | PendingWithoutOutstanding
    | MultipleChanges
    | MultipleChangesInVersion
    | ChangeWasAcked

  // `editor` is the content of the editor the client serves.
  datatype Client<S, O> = Client(
    version: nat,
    phase: Phase,
    ackVersion: Option<nat>,
    outstanding: seq<O>,
    pending: seq<O>,
    buffer: seq<Note<O>>,
    editor: S)

  // What a handler leaves behind: the new state and the requests it emitted.
  type Outcome<S, O> = Result<(Client<S, O>, seq<Request<O>>), ClientError>

  /** `handleLocalOperation`, after the editor has made the change. */
  function HandleLocal<S(!new), O(!new)>(ot: Ot<S, O>, c: Client<S, O>, op: O): (Client<S, O>, seq<Request<O>>) {
    var d := c.(editor := ot.apply(c.editor, op));
    match c.phase
    case Ready =>
      var ops := c.outstanding + [op];
      (d.(outstanding := ops, phase := Waiting), [Request(c.version, ops)])
    case Waiting => (d.(pending := c.pending + [op]), [])
  }

  /** `handleAckReady`, on the state whose version was just advanced. */
  function HandleAck<S(!new), O(!new)>(c: Client<S, O>): (r: Outcome<S, O>)
    ensures r.Ok? ==> r.value.0.buffer == c.buffer && r.value.0.ackVersion == c.ackVersion
  {
    if c.outstanding == [] then Err(AckWithoutOutstanding)
    else if c.phase != Waiting then Err(AckInWrongState)
    else if c.pending != [] then
      Ok((c.(outstanding := c.pending, pending := []), [Request(c.version, c.pending)]))
    else Ok((c.(outstanding := [], phase := Ready), []))
  }

  /** `handleRemoteChangeReady`. */
  function HandleRemote<S(!new), O(!new)>(ot: Ot<S, O>, c: Client<S, O>, ops: seq<O>): (r: Result<Client<S, O>, ClientError>)
    ensures r.Ok? ==> r.value.buffer == c.buffer && r.value.ackVersion == c.ackVersion
  {
    if c.pending != [] && c.outstanding == [] then Err(PendingWithoutOutstanding)
    else
      var r := TransformLists(ot, c.outstanding, ops);
      var q := TransformLists(ot, c.pending, r.1);
      Ok(c.(outstanding := r.0, pending := q.0, editor := ApplyAll(ot, c.editor, q.1)))
  }

  function NotesAt<O>(buffer: seq<Note<O>>, version: nat): (r: seq<Note<O>>)
    ensures |r| <= |buffer|
  {
    if buffer == [] then []
    else (if buffer[0].version == version then [buffer[0]] else []) + NotesAt(buffer[1..], version)
  }

  function NotesNotAt<O>(buffer: seq<Note<O>>, version: nat): (r: seq<Note<O>>)
    ensures |r| + |NotesAt(buffer, version)| == |buffer|
  {
    if buffer == [] then []
    else (if buffer[0].version == version then [] else [buffer[0]]) + NotesNotAt(buffer[1..], version)
  }

  function AckCount<S, O>(c: Client<S, O>): nat { if c.ackVersion.Some? then 1 else 0 }

  /** `advanceIfReady`: take the ack or the buffered note that is next, again and again. */
  function Advance<S(!new), O(!new)>(ot: Ot<S, O>, c: Client<S, O>): Outcome<S, O>
    decreases |c.buffer| + AckCount(c)
  {
    if c.ackVersion == Some(c.version) then
      match HandleAck(c.(version := c.version + 1, ackVersion := None))
      case Err(e) => Err(e)
      case Ok((d, sent)) => Then(sent, Advance(ot, d))
    else
      var notes := NotesAt(c.buffer, c.version);
      var rest := c.(buffer := NotesNotAt(c.buffer, c.version));
      if |notes| == 1 then
        match HandleRemote(ot, rest, notes[0].ops)
        case Err(e) => Err(e)
        case Ok(d) => Advance(ot, d.(version := c.version + 1))
      else if |notes| != 0 then Err(MultipleChanges)
      else Ok((rest, []))
  }

  /** What was sent before an outcome was reached is sent first. */
  function Then<S, O>(sent: seq<Request<O>>, o: Outcome<S, O>): Outcome<S, O> {
    match o
    case Err(e) => Err(e)
    case Ok((c, more)) => Ok((c, sent + more))
  }

  lemma AdvanceTakesAck<S(!new), O(!new)>(ot: Ot<S, O>, c: Client<S, O>)
    requires c.ackVersion == Some(c.version)
    ensures var h := HandleAck(c.(version := c.version + 1, ackVersion := None));
      Advance(ot, c) == if h.Err? then Err(h.error) else Then(h.value.1, Advance(ot, h.value.0))
  {
  }

  function OnAck<S(!new), O(!new)>(ot: Ot<S, O>, c: Client<S, O>, version: nat): Outcome<S, O> {
    if c.phase != Waiting then Err(AckInWrongState)
    else Advance(ot, c.(ackVersion := Some(version)))
  }

  /**
    The guard against duplicate notes. `_.find(buffer, 'baseVersion', version)`
    looks, from index `version` on, for a note whose base version is not zero.
  */
  predicate DuplicateGuard<O>(buffer: seq<Note<O>>, version: nat) {
    exists i :: version <= i < |buffer| && buffer[i].version != 0
  }

  function OnChange<S(!new), O(!new)>(ot: Ot<S, O>, c: Client<S, O>, note: Note<O>): Outcome<S, O> {
    if DuplicateGuard(c.buffer, note.version) then Err(MultipleChangesInVersion)
    else if c.ackVersion == Some(note.version) then Err(ChangeWasAcked)
    else Advance(ot, c.(buffer := c.buffer + [note]))
  }

  // ----- the object of the source -----

  class OtClient<S(!new), O(!new)> {
    const ot: Ot<S, O>
    var version: nat
    var phase: Phase
    var ackVersion: Option<nat>
    var outstanding: seq<O>
    var pending: seq<O>
    var buffer: seq<Note<O>>
    var editor: S
    var sent: seq<Request<O>>

    ghost function View(): Client<S, O>
      reads this
    {
      Client(version, phase, ackVersion, outstanding, pending, buffer, editor)
    }

    /** A handler reached this outcome: it threw that error, or it left that state and sent those requests. */
    ghost predicate Did(o: Outcome<S, O>, r: Result<(), ClientError>, before: seq<Request<O>>)
      reads this
    {
      if o.Err? then r == Err(o.error)
      else r == Ok(()) && View() == o.value.0 && sent == before + o.value.1
    }

    /** A client that has loaded the content of a version. */
    constructor (ot: Ot<S, O>, version: nat, editor: S)
      ensures this.ot == ot && sent == []
      ensures View() == Client(version, Ready, None, [], [], [], editor)
    {
      this.ot := ot;
      this.version, this.phase, this.ackVersion := version, Ready, None;
      this.outstanding, this.pending, this.buffer, this.sent := [], [], [], [];
      this.editor := editor;
    }

    method SendOutstandingChange()
      modifies this`phase, this`sent
      ensures phase == Waiting && sent == old(sent) + [Request(version, outstanding)]
    {
      sent := sent + [Request(version, outstanding)];
      phase := Waiting;
    }

    /** The editor applies a local operation and hands it to the client. */
    method HandleLocalOperation(op: O)
      modifies this
      ensures (View(), sent) == (HandleLocal(ot, old(View()), op).0, old(sent) + HandleLocal(ot, old(View()), op).1)
    {
      editor := ot.apply(editor, op);
      match phase {
        case Ready =>
          outstanding := outstanding + [op];
          SendOutstandingChange();
        case Waiting =>
          pending := pending + [op];
          assert sent + [] == sent;
      }
    }

    method HandleAckReady() returns (r: Result<(), ClientError>)
      modifies this
      ensures Did(HandleAck(old(View())), r, old(sent))
    {
      if outstanding == [] {
        return Err(AckWithoutOutstanding);
      }
      if phase != Waiting {
        return Err(AckInWrongState);
      }
      if |pending| > 0 {
        outstanding := pending;
        pending := [];
        SendOutstandingChange();
      } else {
        outstanding := [];
        phase := Ready;
      }
      return Ok(());
    }

    method HandleRemoteChangeReady(ops: seq<O>) returns (r: Result<(), ClientError>)
      modifies this`outstanding, this`pending, this`editor
      ensures var h := HandleRemote(ot, old(View()), ops);
        if h.Err? then r == Err(h.error) else r == Ok(()) && View() == h.value
    {
      if |pending| > 0 {
        if |outstanding| == 0 {
          return Err(PendingWithoutOutstanding);
        }
      }
      var mine := ToArray(outstanding);
      var change := ToArray(ops);
      TransformMultiple(ot, mine, change);
      outstanding := mine[..];
      mine := ToArray(pending);
      TransformMultiple(ot, mine, change);
      pending := mine[..];
      editor := ApplyAll(ot, editor, change[..]);
      return Ok(());
    }

    method AdvanceIfReady() returns (r: Result<(), ClientError>)
      modifies this
      ensures Did(Advance(ot, old(View())), r, old(sent))
      decreases |buffer| + AckCount(View()), 1
    {
      if ackVersion.Some? && version == ackVersion.value {
        r := AdvancePastAck();
      } else {
        r := AdvancePastNote();
      }
    }

    method AdvancePastAck() returns (r: Result<(), ClientError>)
      requires ackVersion == Some(version)
      modifies this
      ensures Did(Advance(ot, old(View())), r, old(sent))
      decreases |buffer| + AckCount(View()), 0
    {
      ghost var before := View();
      AdvanceTakesAck(ot, before);
      hide Advance, HandleAck;
      version := version + 1;
      ackVersion := None;
      assert View() == before.(version := before.version + 1, ackVersion := None);
      r := HandleAckReady();
      if r.Ok? {
        r := AdvanceIfReady();
      }
    }

    method AdvancePastNote() returns (r: Result<(), ClientError>)
      requires ackVersion != Some(version)
      modifies this
      ensures Did(Advance(ot, old(View())), r, old(sent))
      decreases |buffer| + AckCount(View()), 0
    {
      var changeNotes := NotesAt(buffer, version);
      buffer := NotesNotAt(buffer, version);
      if |changeNotes| == 1 {
        r := HandleRemoteChangeReady(changeNotes[0].ops);
        if r.Ok? {
          version := version + 1;
          r := AdvanceIfReady();
        }
        return;
      }
      if |changeNotes| != 0 {
        return Err(MultipleChanges);
      }
      return Ok(());
    }

    method OnAckMessage(note: nat) returns (r: Result<(), ClientError>)
      modifies this
      ensures Did(OnAck(ot, old(View()), note), r, old(sent))
    {
      if phase != Waiting {
        return Err(AckInWrongState);
      }
      ackVersion := Some(note);
      r := AdvanceIfReady();
    }

    /** A note the guards refuse is lost, and the client is as it was before. */
    method OnChangeMessage(note: Note<O>) returns (r: Result<(), ClientError>)
      modifies this
      ensures Did(OnChange(ot, old(View()), note), r, old(sent))
      ensures DuplicateGuard(old(buffer), note.version) || old(ackVersion) == Some(note.version) ==>
        r.Err? && View() == old(View()) && sent == old(sent)
    {
      if DuplicateGuard(buffer, note.version) {
        return Err(MultipleChangesInVersion);
      }
      if ackVersion == Some(note.version) {
        return Err(ChangeWasAcked);
      }
      buffer := buffer + [note];
      r := AdvanceIfReady();
    }
  }

  method ToArray<O>(s: seq<O>) returns (a: array<O>)
    ensures fresh(a) && a[..] == s
  {
    a := new O[|s|](i requires 0 <= i < |s| => s[i]);
  }
}
