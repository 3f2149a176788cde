/**
  One project's data-encryption key (object-persistor:
  PerProjectEncryptedS3Persistor.js lines 206-306). The key lies in a bucket,
  encrypted under one of the listed key-encryption keys (KEKs). First the three
  private methods as they run when nobody interferes, then the same steps of any
  number of callers in any interleaving, with writes that may arrive late.
*/
module DataKey {
  import opened Common

  type Key = nat

  // What the bucket holds: the data key, encrypted under this KEK.
  datatype Sealed = Sealed(dek: Key, kek: Key)

  datatype Error = NotFound | NoKekMatched | AlreadyWritten | RequestFailed

  datatype Answer = Got(dek: Key) | Forbidden | Missing

  /** GET with one KEK. */
  function ReadWith(stored: Option<Sealed>, kek: Key): Answer {
    if stored.None? then Missing
    else if stored.value.kek == kek then Got(stored.value.dek)
    else Forbidden
  }

  /** PUT with `If-None-Match: *`, or plain. */
  function Written(stored: Option<Sealed>, sealed: Sealed, ifAbsent: bool): Option<Sealed> {
    if ifAbsent && stored.Some? then stored else Some(sealed)
  }

  // ----- the methods, undisturbed -----

  class Bucket {
    var stored: Option<Sealed>

    constructor ()
      ensures stored.None?
    {
      stored := None;
    }

    method Put(sealed: Sealed, ifAbsent: bool) returns (done: bool)
      modifies this
      ensures stored == Written(old(stored), sealed, ifAbsent)
      ensures done <==> !(ifAbsent && old(stored).Some?)
    {
      done := !(ifAbsent && stored.Some?);
      if done { stored := Some(sealed); }
    }

    /** Tries the KEKs in order; re-encrypts under the current one if an older one matched. */
    method GetExisting(keks: seq<Key>, rotate: bool) returns (r: Result<Key, Error>)
      requires keks != []
      modifies this
      ensures old(stored).None? ==> r == Err(NotFound) && stored.None?
      ensures old(stored).Some? && old(stored).value.kek !in keks ==> r == Err(NoKekMatched) && stored == old(stored)
      ensures old(stored).Some? && old(stored).value.kek in keks ==>
        r == Ok(old(stored).value.dek)
        && stored == Some(Sealed(r.value, if rotate then keks[0] else old(stored).value.kek))
    {
      var res: Option<Key> := None;
      var kekIndex := 0;
      while kekIndex < |keks| && res.None?
        invariant 0 <= kekIndex <= |keks| && stored == old(stored) && (kekIndex > 0 ==> stored.Some?)
        invariant res.None? ==> forall k :: 0 <= k < kekIndex && stored.Some? ==> stored.value.kek != keks[k]
        invariant res.Some? ==> kekIndex < |keks| && stored == Some(Sealed(res.value, keks[kekIndex]))
        decreases |keks| - kekIndex, res.None?
      {
        match ReadWith(stored, keks[kekIndex]) {
          case Got(dek) => res := Some(dek);
          case Forbidden => kekIndex := kekIndex + 1;
          case Missing => return Err(NotFound);
        }
      }
      if res.None? { return Err(NoKekMatched); }
      if kekIndex != 0 && rotate {
        var _ := Put(Sealed(res.value, keks[0]), false);
      }
      return Ok(res.value);
    }

    method Generate(keks: seq<Key>, random: Key) returns (r: Result<Key, Error>)
      requires keks != []
      modifies this
      ensures old(stored).None? ==> r == Ok(random) && stored == Some(Sealed(random, keks[0]))
      ensures old(stored).Some? ==> r == Err(AlreadyWritten) && stored == old(stored)
    {
      var done := Put(Sealed(random, keks[0]), true);
      r := if done then Ok(random) else Err(AlreadyWritten);
    }

    /**
      A rival may create the object between the first read and the create. Either
      way the key returned is the one the bucket holds.
    */
    method GetOrGenerate(keks: seq<Key>, rotate: bool, random: Key, rival: Option<Sealed>) returns (r: Result<Key, Error>)
      requires keks != []
      modifies this
      ensures old(stored).None? && rival.None? ==> r == Ok(random) && stored == Some(Sealed(random, keks[0]))
      ensures old(stored).Some? || rival.Some? ==>
        var first := if old(stored).Some? then old(stored).value else rival.value;
        r == (if first.kek in keks then Ok(first.dek) else Err(NoKekMatched))
      ensures r.Ok? ==> stored.Some? && stored.value.dek == r.value && stored.value.kek in keks
    {
      r := GetExisting(keks, rotate);
      if r == Err(NotFound) {
        if rival.Some? { stored := Written(stored, rival.value, true); }
        r := Generate(keks, random);
        if r == Err(AlreadyWritten) {
          r := GetExisting(keks, rotate);
        }
      }
    }
  }

  // ----- the same, interleaved -----

  datatype Kind = ExistingOnly | GenerateOnly | ExistingOrNew

  datatype Phase =
    | Reading(kekIndex: nat)
    | HasKey(dek: Key, kekIndex: nat)
    | MustGenerate
    | Creating(dek: Key)        // a conditional PUT is on its way
    | Rotating(dek: Key)        // a plain PUT is on its way
    | Returned(dek: Key)
    | Failed(error: Error)

  datatype Call = Call(kind: Kind, keks: seq<Key>, again: bool, phase: Phase)

  datatype PutRequest = Put(call: nat, content: Sealed, ifAbsent: bool)

  // `rotate`: automaticallyRotateDEKEncryption; `ignore`: ignoreErrorsFromDEKReEncryption.
  datatype State = State(rotate: bool, ignore: bool, stored: Option<Sealed>, calls: seq<Call>, puts: seq<PutRequest>)

  datatype Step =
    | Begin(kind: Kind, keks: seq<Key>)
    | ServeGet(i: nat)
    | Generate(i: nat, dek: Key)
    | Finish(i: nat)      // a call that has read the key rotates it or returns it
    | ServePut(k: nat)
    | LosePut(k: nat)
    | Fail(i: nat)        // any request of a running call fails with some other error

  predicate Running(p: Phase) { !p.Returned? && !p.Failed? }

  function Moved(s: State, i: nat, phase: Phase): State
    requires i < |s.calls|
  {
    s.(calls := s.calls[i := s.calls[i].(phase := phase)])
  }

  function AfterGet(s: State, i: nat): State
    requires i < |s.calls| && s.calls[i].phase.Reading? && s.calls[i].phase.kekIndex < |s.calls[i].keks|
  {
    var c := s.calls[i];
    match ReadWith(s.stored, c.keks[c.phase.kekIndex])
    case Got(dek) => Moved(s, i, HasKey(dek, c.phase.kekIndex))
    case Forbidden =>
      var next := c.phase.kekIndex + 1;
      Moved(s, i, if next < |c.keks| then Reading(next) else Failed(NoKekMatched))
    case Missing =>
      Moved(s, i, if c.kind == ExistingOrNew && !c.again then MustGenerate else Failed(NotFound))
  }

  function Send(s: State, p: PutRequest): State { s.(puts := s.puts + [p]) }

  function Finished(s: State, i: nat): State
    requires i < |s.calls| && s.calls[i].phase.HasKey? && s.calls[i].keks != []
  {
    var c := s.calls[i];
    if c.phase.kekIndex != 0 && s.rotate
    then Send(Moved(s, i, Rotating(c.phase.dek)), Put(i, Sealed(c.phase.dek, c.keks[0]), false))
    else Moved(s, i, Returned(c.phase.dek))
  }

  /** The answer to a PUT, if the call is still waiting for it. */
  function Answered(s: State, p: PutRequest, done: bool): State
    requires p.call < |s.calls|
  {
    var c := s.calls[p.call];
    if p.ifAbsent && c.phase.Creating? then
      if done then Moved(s, p.call, Returned(c.phase.dek))
      else if c.kind == ExistingOrNew then s.(calls := s.calls[p.call := c.(again := true, phase := Reading(0))])
      else Moved(s, p.call, Failed(AlreadyWritten))
    else if !p.ifAbsent && c.phase.Rotating? then Moved(s, p.call, Returned(c.phase.dek))
    else s
  }

  function Gone(s: State, k: nat): State
    requires k < |s.puts|
  {
    s.(puts := s.puts[..k] + s.puts[k + 1..])
  }

  ghost predicate Enabled(s: State, step: Step) {
    match step
    case Begin(_, keks) => keks != []
    case ServeGet(i) =>
      i < |s.calls| && s.calls[i].phase.Reading? && s.calls[i].phase.kekIndex < |s.calls[i].keks|
    case Generate(i, _) => i < |s.calls| && s.calls[i].phase.MustGenerate? && s.calls[i].keks != []
    case Finish(i) => i < |s.calls| && s.calls[i].phase.HasKey? && s.calls[i].keks != []
    case ServePut(k) => k < |s.puts| && s.puts[k].call < |s.calls|
    case LosePut(k) => k < |s.puts|
    case Fail(i) => i < |s.calls| && Running(s.calls[i].phase)
  }

  function Next(s: State, step: Step): State
    requires Enabled(s, step)
  {
    match step
    case Begin(kind, keks) =>
      s.(calls := s.calls + [Call(kind, keks, false, if kind == GenerateOnly then MustGenerate else Reading(0))])
    case ServeGet(i) => AfterGet(s, i)
    case Generate(i, dek) =>
      Send(Moved(s, i, Creating(dek)), Put(i, Sealed(dek, s.calls[i].keks[0]), true))
    case Finish(i) => Finished(s, i)
    case ServePut(k) =>
      var p := s.puts[k];
      var done := !(p.ifAbsent && s.stored.Some?);
      Answered(Gone(s, k).(stored := Written(s.stored, p.content, p.ifAbsent)), p, done)
    case LosePut(k) => Gone(s, k)
    case Fail(i) =>
      var p := s.calls[i].phase;
      Moved(s, i, if p.Rotating? && s.ignore then Returned(p.dek) else Failed(RequestFailed))
  }

  function Start(rotate: bool, ignore: bool): State { State(rotate, ignore, None, [], []) }

  /** A run of steps from r to s. */
  ghost predicate Run(r: State, steps: seq<Step>, s: State)
    decreases |steps|
  {
    if steps == [] then s == r
    else exists m :: Run(r, Front(steps), m) && Enabled(m, Last(steps)) && s == Next(m, Last(steps))
  }

  lemma NoSteps(r: State)
    ensures Run(r, [], r)
  {
  }

  /** One more step of a run. */
  lemma Extend(r: State, before: seq<Step>, m: State, step: Step) returns (steps: seq<Step>, s: State)
    requires Run(r, before, m) && Enabled(m, step)
    ensures Run(r, steps, s) && s == Next(m, step) && steps == before + [step]
  {
    steps, s := before + [step], Next(m, step);
    assert Front(steps) == before && Last(steps) == step;
  }

  // ----- the invariant -----

  /** A KEK that some call had in its list. */
  ghost predicate Listed(s: State, kek: Key) {
    exists i :: 0 <= i < |s.calls| && kek in s.calls[i].keks
  }

  ghost predicate Knows(p: Phase) { p.HasKey? || p.Rotating? || p.Returned? }

  /** A call sends at most one conditional PUT; this one has sent it. */
  ghost predicate HasAsked(c: Call) { c.again || c.phase.Creating? || !Running(c.phase) }

  ghost predicate CallInv(s: State, i: nat)
    requires i < |s.calls|
  {
    var c := s.calls[i];
    && c.keks != [] && (c.again ==> !c.phase.MustGenerate?)
    && (Knows(c.phase) ==> s.stored.Some? && s.stored.value.dek == c.phase.dek)
    && (c.phase.Reading? ==> c.phase.kekIndex < |c.keks|)
    && (c.phase.HasKey? ==> c.phase.kekIndex < |c.keks|)
  }

  ghost predicate PutInv(s: State, p: PutRequest) {
    && p.call < |s.calls| && s.calls[p.call].keks != [] && p.content.kek == s.calls[p.call].keks[0]
    && (!p.ifAbsent ==> s.stored.Some? && s.stored.value.dek == p.content.dek)
    && (p.ifAbsent ==> HasAsked(s.calls[p.call]))
    && (p.ifAbsent && s.calls[p.call].phase.Creating? ==> p.content.dek == s.calls[p.call].phase.dek)
  }

  ghost predicate Inv(s: State) {
    && (forall i :: 0 <= i < |s.calls| ==> CallInv(s, i))
    && (forall p :: p in s.puts ==> PutInv(s, p))
    && (s.stored.Some? ==> Listed(s, s.stored.value.kek))
  }

  lemma ListedStays(s: State, u: State, kek: Key)
    requires Listed(s, kek) && |s.calls| <= |u.calls|
    requires forall i :: 0 <= i < |s.calls| ==> u.calls[i].keks == s.calls[i].keks
    ensures Listed(u, kek)
  {
    var i :| 0 <= i < |s.calls| && kek in s.calls[i].keks;
    assert kek in u.calls[i].keks;
  }

  /** The key in the bucket, once there, is the same after any step. */
  ghost predicate SameKey(s: State, u: State) {
    s.stored.Some? ==> u.stored.Some? && u.stored.value.dek == s.stored.value.dek
  }

  lemma NextKeeps(s: State, step: Step)
    requires Inv(s) && Enabled(s, step)
    ensures Inv(Next(s, step)) && SameKey(s, Next(s, step))
  {
    if step.ServePut? {
      PutKeeps(s, step.k);
    } else {
      CallKeeps(s, step);
    }
  }

  lemma CallKeeps(s: State, step: Step)
    requires Inv(s) && Enabled(s, step) && !step.ServePut?
    ensures Inv(Next(s, step)) && Next(s, step).stored == s.stored
  {
    var u := Next(s, step);
    forall i | 0 <= i < |u.calls| ensures CallInv(u, i) {
      OneCallKeeps(s, step, i);
    }
    forall p | p in u.puts ensures PutInv(u, p) {
      if p in s.puts { OldPutKeeps(s, step, p); } else { NewPut(s, step, p); }
    }
    if s.stored.Some? { ListedStays(s, u, s.stored.value.kek); }
  }

  lemma OneCallKeeps(s: State, step: Step, i: nat)
    requires Enabled(s, step) && !step.ServePut? && i < |Next(s, step).calls|
    requires i < |s.calls| ==> CallInv(s, i)
    ensures CallInv(Next(s, step), i)
  {
  }

  lemma OldPutKeeps(s: State, step: Step, p: PutRequest)
    requires Enabled(s, step) && !step.ServePut? && PutInv(s, p) && CallInv(s, p.call)
    ensures PutInv(Next(s, step), p)
  {
  }

  lemma NewPut(s: State, step: Step, p: PutRequest)
    requires Inv(s) && Enabled(s, step) && !step.ServePut? && p in Next(s, step).puts && p !in s.puts
    ensures PutInv(Next(s, step), p)
  {
    match step {
      case Finish(i) => assert CallInv(s, i);
      case _ =>
    }
  }

  lemma PutKeeps(s: State, k: nat)
    requires Inv(s) && Enabled(s, ServePut(k))
    ensures Inv(Next(s, ServePut(k))) && SameKey(s, Next(s, ServePut(k)))
  {
    var p, u := s.puts[k], Next(s, ServePut(k));
    assert PutInv(s, p);
    forall i | 0 <= i < |u.calls| ensures CallInv(u, i) {
      ServedCall(s, k, i);
    }
    forall q | q in u.puts ensures PutInv(u, q) {
      ServedPut(s, k, q);
    }
    assert p.content.kek in s.calls[p.call].keks;
    assert Listed(s, p.content.kek);
    ListedStays(s, u, u.stored.value.kek);
  }

  lemma ServedCall(s: State, k: nat, i: nat)
    requires Enabled(s, ServePut(k)) && PutInv(s, s.puts[k]) && i < |s.calls| && CallInv(s, i)
    ensures |Next(s, ServePut(k)).calls| == |s.calls| && CallInv(Next(s, ServePut(k)), i)
  {
  }

  lemma ServedPut(s: State, k: nat, q: PutRequest)
    requires Enabled(s, ServePut(k)) && PutInv(s, s.puts[k]) && PutInv(s, q)
    ensures PutInv(Next(s, ServePut(k)), q)
  {
  }

  lemma {:induction false} RunKeeps(r: State, steps: seq<Step>, s: State)
    requires Inv(r) && Run(r, steps, s)
    ensures Inv(s) && SameKey(r, s)
    decreases |steps|
  {
    if steps != [] {
      var m :| Run(r, Front(steps), m) && Enabled(m, Last(steps)) && s == Next(m, Last(steps));
      RunKeeps(r, Front(steps), m);
      NextKeeps(m, Last(steps));
    }
  }

  // ----- what the protocol promises -----

  /** All calls that return, in any interleaving, return one and the same key. */
  lemma AllReturnTheSameKey(rotate: bool, ignore: bool, steps: seq<Step>, s: State, i: nat, j: nat)
    requires Run(Start(rotate, ignore), steps, s)
    requires i < |s.calls| && j < |s.calls| && s.calls[i].phase.Returned? && s.calls[j].phase.Returned?
    ensures s.calls[i].phase.dek == s.calls[j].phase.dek
    ensures s.stored.Some? && s.stored.value.dek == s.calls[i].phase.dek
    ensures exists c :: 0 <= c < |s.calls| && s.stored.value.kek in s.calls[c].keks
  {
    RunKeeps(Start(rotate, ignore), steps, s);
    assert CallInv(s, i) && CallInv(s, j);
  }

  /** Once there is a key, no later run changes it: not a late create, not a rotation. */
  lemma KeyIsForever(rotate: bool, ignore: bool, before: seq<Step>, s: State, after: seq<Step>, u: State)
    requires Run(Start(rotate, ignore), before, s) && s.stored.Some? && Run(s, after, u)
    ensures u.stored.Some? && u.stored.value.dek == s.stored.value.dek
    ensures Listed(u, u.stored.value.kek)
  {
    RunKeeps(Start(rotate, ignore), before, s);
    RunKeeps(s, after, u);
  }

  // ----- losing the race to create the key -----

  /** A call for an existing or new key is never told that there is none, or that there is one already. */
  ghost predicate RaceInv(s: State) {
    forall i :: 0 <= i < |s.calls| && s.calls[i].kind == ExistingOrNew ==> RaceCall(s, s.calls[i])
  }

  ghost predicate RaceCall(s: State, c: Call) {
    (c.again ==> s.stored.Some?) && c.phase != Failed(NotFound) && c.phase != Failed(AlreadyWritten)
  }

  lemma RaceKeeps(s: State, step: Step)
    requires RaceInv(s) && Enabled(s, step)
    ensures RaceInv(Next(s, step))
  {
    var u := Next(s, step);
    forall i | 0 <= i < |u.calls| && u.calls[i].kind == ExistingOrNew ensures RaceCall(u, u.calls[i]) {
      if step.ServePut? { ServedRaces(s, step.k, i); } else { OneCallRaces(s, step, i); }
    }
  }

  lemma ServedRaces(s: State, k: nat, i: nat)
    requires Enabled(s, ServePut(k)) && i < |s.calls| && (s.calls[i].kind == ExistingOrNew ==> RaceCall(s, s.calls[i]))
    ensures |Next(s, ServePut(k)).calls| == |s.calls| && Next(s, ServePut(k)).calls[i].kind == s.calls[i].kind
    ensures s.calls[i].kind == ExistingOrNew ==> RaceCall(Next(s, ServePut(k)), Next(s, ServePut(k)).calls[i])
  {
  }

  lemma OneCallRaces(s: State, step: Step, i: nat)
    requires Enabled(s, step) && !step.ServePut? && i < |Next(s, step).calls| && Next(s, step).calls[i].kind == ExistingOrNew
    requires i < |s.calls| && s.calls[i].kind == ExistingOrNew ==> RaceCall(s, s.calls[i])
    ensures RaceCall(Next(s, step), Next(s, step).calls[i])
  {
  }

  lemma {:induction false} RunRaces(r: State, steps: seq<Step>, s: State)
    requires RaceInv(r) && Run(r, steps, s)
    ensures RaceInv(s)
    decreases |steps|
  {
    if steps != [] {
      var m :| Run(r, Front(steps), m) && Enabled(m, Last(steps)) && s == Next(m, Last(steps));
      RunRaces(r, Front(steps), m);
      RaceKeeps(m, Last(steps));
    }
  }

  /** So it fails only if a request fails in some other way, or if no KEK fits. */
  lemma RaceIsHidden(rotate: bool, ignore: bool, steps: seq<Step>, s: State, i: nat)
    requires Run(Start(rotate, ignore), steps, s) && i < |s.calls|
    requires s.calls[i].kind == ExistingOrNew && s.calls[i].phase.Failed?
    ensures s.calls[i].phase.error == NoKekMatched || s.calls[i].phase.error == RequestFailed
  {
    RunRaces(Start(rotate, ignore), steps, s);
    assert RaceCall(s, s.calls[i]);
  }

  /** Left alone, a scan finds the first KEK that fits. */
  lemma {:induction false} ScanFinds(r: State, before: seq<Step>, s: State, i: nat, m: nat) returns (steps: seq<Step>, t: State)
    requires Run(r, before, s) && i < |s.calls| && s.stored.Some?
    requires s.calls[i].phase.Reading? && s.calls[i].phase.kekIndex <= m < |s.calls[i].keks|
    requires RuledOut(s.calls[i].keks, m, s.stored.value.kek) && s.calls[i].keks[m] == s.stored.value.kek
    ensures Run(r, steps, t) && before <= steps
    ensures t == Moved(s, i, HasKey(s.stored.value.dek, m))
    decreases m - s.calls[i].phase.kekIndex
  {
    hide Run;
    steps, t := Extend(r, before, s, ServeGet(i));
    assert before <= steps;
    if s.calls[i].phase.kekIndex < m {
      assert t == Moved(s, i, Reading(s.calls[i].phase.kekIndex + 1));
      steps, t := ScanFinds(r, steps, t, i, m);
    }
  }

  /**
    A call whose create comes too late reads again, and left alone it then returns
    the key that beat it, if any of its KEKs fits.
  */
  lemma LoserGetsTheKey(r: State, before: seq<Step>, s: State, k: nat, m: nat) returns (steps: seq<Step>, t: State)
    requires Run(r, before, s) && Enabled(s, ServePut(k)) && s.stored.Some? && s.puts[k].ifAbsent
    requires var c := s.calls[s.puts[k].call];
      && c.kind == ExistingOrNew && c.phase.Creating? && m < |c.keks|
      && c.keks[m] == s.stored.value.kek && RuledOut(c.keks, m, s.stored.value.kek)
    ensures var u := Next(s, ServePut(k)); u.stored == s.stored && u.calls[s.puts[k].call].phase == Reading(0)
    ensures Run(r, steps, t) && before + [ServePut(k)] <= steps
    ensures |t.calls| == |s.calls| && t.calls[s.puts[k].call].phase == Returned(s.stored.value.dek)
    ensures t.stored.Some? && t.stored.value.dek == s.stored.value.dek
  {
    hide Run;
    var i := s.puts[k].call;
    steps, t := Extend(r, before, s, ServePut(k));
    assert before + [ServePut(k)] <= steps;
    steps, t := ScanFinds(r, steps, t, i, m);
    steps, t := Extend(r, steps, t, Finish(i));
    if t.calls[i].phase.Rotating? {
      assert Last(t.puts) == Put(i, Sealed(s.stored.value.dek, t.calls[i].keks[0]), false);
      steps, t := Extend(r, steps, t, ServePut(|t.puts| - 1));
    }
  }

  // ----- when no key-encryption key matches -----

  /** Without rotation the scan of a call is a true search: what it has ruled out stays ruled out. */
  ghost predicate ScanInv(s: State) {
    && !s.rotate
    && (forall p :: p in s.puts ==> p.ifAbsent)
    && (forall i :: 0 <= i < |s.calls| ==> Scanned(s, s.calls[i]))
  }

  ghost predicate RuledOut(keks: seq<Key>, k: nat, kek: Key)
    requires k <= |keks|
  {
    forall j :: 0 <= j < k ==> keks[j] != kek
  }

  ghost predicate Scanned(s: State, c: Call) {
    && (c.phase.Reading? && c.phase.kekIndex > 0 ==>
          c.phase.kekIndex <= |c.keks| && s.stored.Some? && RuledOut(c.keks, c.phase.kekIndex, s.stored.value.kek))
    && (c.phase == Failed(NoKekMatched) ==> s.stored.Some? && RuledOut(c.keks, |c.keks|, s.stored.value.kek))
  }

  lemma ScanKeeps(s: State, step: Step)
    requires ScanInv(s) && Enabled(s, step)
    ensures ScanInv(Next(s, step))
  {
    var u := Next(s, step);
    forall i | 0 <= i < |u.calls| ensures Scanned(u, u.calls[i]) {
      assert i < |s.calls| ==> Scanned(s, s.calls[i]);
      if step == ServeGet(i) { ScanGoesOn(s, i); }
    }
  }

  lemma ScanGoesOn(s: State, i: nat)
    requires Enabled(s, ServeGet(i)) && Scanned(s, s.calls[i])
    ensures Scanned(Next(s, ServeGet(i)), Next(s, ServeGet(i)).calls[i])
  {
  }

  lemma {:induction false} RunScans(r: State, steps: seq<Step>, s: State)
    requires ScanInv(r) && Run(r, steps, s)
    ensures ScanInv(s)
    decreases |steps|
  {
    if steps != [] {
      var m :| Run(r, Front(steps), m) && Enabled(m, Last(steps)) && s == Next(m, Last(steps));
      RunScans(r, Front(steps), m);
      ScanKeeps(m, Last(steps));
    }
  }

  /** Without rotation, a call finds no KEK only if the key really is under none of those it has. */
  lemma NoKekMatchedIsTrue(ignore: bool, steps: seq<Step>, s: State, i: nat)
    requires Run(Start(false, ignore), steps, s) && i < |s.calls| && s.calls[i].phase == Failed(NoKekMatched)
    ensures s.stored.Some? && s.stored.value.kek !in s.calls[i].keks
  {
    RunScans(Start(false, ignore), steps, s);
    assert Scanned(s, s.calls[i]);
  }

  /** A first call creates the key 7 under KEK 0. */
  lemma FirstUse(ignore: bool) returns (steps: seq<Step>, s: State)
    ensures Run(Start(true, ignore), steps, s)
    ensures s.rotate && s.stored == Some(Sealed(7, 0)) && s.puts == [] && |s.calls| == 1
  {
    hide Run;
    var r := Start(true, ignore);
    NoSteps(r);
    steps, s := Extend(r, [], r, Begin(GenerateOnly, [0]));
    assert s == State(true, ignore, None, [Call(GenerateOnly, [0], false, MustGenerate)], []);
    steps, s := Extend(r, steps, s, Generate(0, 7));
    assert s.calls == [Call(GenerateOnly, [0], false, Creating(7))];
    assert s.puts == [Put(0, Sealed(7, 0), true)];
    steps, s := Extend(r, steps, s, ServePut(0));
  }

  /** Two more calls with the KEKs 1 and 0: the one has tried KEK 1 when the other rotates. */
  lemma OneReadsOneRotates(ignore: bool) returns (steps: seq<Step>, s: State)
    ensures Run(Start(true, ignore), steps, s)
    ensures s.stored == Some(Sealed(7, 1)) && |s.calls| == 3
    ensures s.calls[1] == Call(ExistingOrNew, [1, 0], false, Reading(1))
  {
    hide Run;
    var r := Start(true, ignore);
    steps, s := FirstUse(ignore);
    steps, s := Extend(r, steps, s, Begin(ExistingOrNew, [1, 0]));
    steps, s := Extend(r, steps, s, ServeGet(1));
    steps, s := Extend(r, steps, s, Begin(ExistingOrNew, [1, 0]));
    assert s.stored == Some(Sealed(7, 0)) && s.puts == [] && |s.calls| == 3 && s.rotate;
    assert s.calls[1] == Call(ExistingOrNew, [1, 0], false, Reading(1));
    assert s.calls[2] == Call(ExistingOrNew, [1, 0], false, Reading(0));
    steps, s := Rotates(r, steps, s);
  }

  lemma Rotates(r: State, before: seq<Step>, m: State) returns (steps: seq<Step>, s: State)
    requires Run(r, before, m) && m.rotate && m.stored == Some(Sealed(7, 0)) && m.puts == [] && |m.calls| == 3
    requires m.calls[2] == Call(ExistingOrNew, [1, 0], false, Reading(0))
    ensures Run(r, steps, s) && s.stored == Some(Sealed(7, 1)) && |s.calls| == 3 && s.calls[1] == m.calls[1]
  {
    hide Run;
    steps, s := Extend(r, before, m, ServeGet(2));
    steps, s := Extend(r, steps, s, ServeGet(2));
    steps, s := Extend(r, steps, s, Finish(2));
    assert s.puts == [Put(2, Sealed(7, 1), false)];
    steps, s := Extend(r, steps, s, ServePut(0));
  }

  /**
    With rotation it can be wrong: a scan that a rotation overtakes finds no KEK,
    although the key is under one of its own, before and after.
  */
  lemma RotationCanHideTheKey(ignore: bool) returns (steps: seq<Step>, s: State)
    ensures Run(Start(true, ignore), steps, s) && |s.calls| == 3
    ensures s.calls[1].phase == Failed(NoKekMatched)
    ensures s.stored.Some? && s.stored.value.kek in s.calls[1].keks
  {
    hide Run;
    steps, s := OneReadsOneRotates(ignore);
    steps, s := Extend(Start(true, ignore), steps, s, ServeGet(1));
  }
}
