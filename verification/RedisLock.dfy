/**
  The Redis lock (redis-wrapper: RedisLocker.js) for one id, as a state machine:
  any number of callers, one Redis key with an expiry time, and requests and
  answers that take any time, overtake each other or never arrive. The two Lua
  scripts and `SET EX NX` are atomic steps. Time is in milliseconds on one clock.
*/
module RedisLock {
  import opened Common

  const MAX_REDIS_REQUEST_LENGTH: nat := 5000

  // The lock value is the number of the call that made it: no two calls share one.
  datatype Stored = Stored(value: nat, expiresAt: nat)

  datatype Phase =
    | Asking                // SET is on its way to Redis
    | Answered(got: bool)   // the answer is on its way back
    | Holding               // told that it has the lock
    | Refused               // told that it does not
    | GaveUp                // Redis said OK too late, or the caller learnt that the lock is lost
    | Released              // the caller sent a release
    | Abandoned             // SET is on its way, but nobody waits for the answer any more
    | Crashed

  // `lease` is the expiry time Redis last gave this call's value; `sureUntil` is
  // the part of it the caller can work out from its own clock.
  datatype Call = Call(startedAt: nat, phase: Phase, lease: nat, sureUntil: nat, deleted: bool)

  datatype Request = Extend(value: nat, sentAt: nat) | Unlock(value: nat)

  datatype Answer = Extended(value: nat, sentAt: nat, done: bool)

  datatype State = State(
    ttl: nat, now: nat, stored: Option<Stored>, calls: seq<Call>, requests: seq<Request>, answers: seq<Answer>)

  datatype Step =
    | Tick(d: nat)
    | TryLock
    | ServeSet(i: nat)
    | DeliverSet(i: nat)
    | Fail(i: nat)
    | Crash(i: nat)
    | SendExtend(i: nat)
    | SendRelease(i: nat)
    | Serve(k: nat)
    | DeliverExtend(k: nat)
    | LoseRequest(k: nat)
    | LoseAnswer(k: nat)

  // ----- what Redis does -----

  predicate Taken(stored: Option<Stored>, now: nat) {
    stored.Some? && now < stored.value.expiresAt
  }

  /** The guard both scripts share: the key is there and holds this value. */
  predicate Owns(stored: Option<Stored>, now: nat, value: nat) {
    Taken(stored, now) && stored.value.value == value
  }

  predicate Unserved(c: Call) { c.phase.Asking? || c.phase.Abandoned? }

  function Lease(s: State): nat { s.now + 1000 * s.ttl }

  function WithCall(s: State, i: nat, c: Call): State
    requires i < |s.calls|
  {
    s.(calls := s.calls[i := c])
  }

  function WithPhase(s: State, i: nat, phase: Phase): State
    requires i < |s.calls|
  {
    WithCall(s, i, s.calls[i].(phase := phase))
  }

  function Without<T>(xs: seq<T>, k: nat): seq<T>
    requires k < |xs|
  {
    xs[..k] + xs[k + 1..]
  }

  /** `SET EX NX`; the answer goes back to the caller if there is still one. */
  function Set(s: State, i: nat): State
    requires i < |s.calls|
  {
    var got := !Taken(s.stored, s.now);
    var u := WithPhase(s, i, if s.calls[i].phase == Asking then Answered(got) else Refused);
    if got then WithCall(u, i, u.calls[i].(lease := Lease(s))).(stored := Some(Stored(i, Lease(s)))) else u
  }

  function RunExtend(s: State, i: nat, sentAt: nat): State
    requires i < |s.calls|
  {
    var done := Owns(s.stored, s.now, i);
    var u := s.(answers := s.answers + [Extended(i, sentAt, done)]);
    if done then WithCall(u, i, u.calls[i].(lease := Lease(s))).(stored := Some(Stored(i, Lease(s)))) else u
  }

  function RunUnlock(s: State, i: nat): State
    requires i < |s.calls|
  {
    if Owns(s.stored, s.now, i) then WithCall(s, i, s.calls[i].(deleted := true)).(stored := None) else s
  }

  function RunRequest(s: State, r: Request): State
    requires r.value < |s.calls|
  {
    match r
    case Extend(i, sentAt) => RunExtend(s, i, sentAt)
    case Unlock(i) => RunUnlock(s, i)
  }

  // ----- what the callers do -----

  /** The callback of SET: an OK that took too long is released again and reported as no lock. */
  function OnSetAnswer(s: State, i: nat): State
    requires i < |s.calls| && s.calls[i].phase.Answered?
  {
    var c := s.calls[i];
    if !c.phase.got then WithPhase(s, i, Refused)
    else if s.now - c.startedAt > MAX_REDIS_REQUEST_LENGTH then
      WithPhase(s, i, GaveUp).(requests := s.requests + [Unlock(i)])
    else WithCall(s, i, c.(phase := Holding, sureUntil := c.startedAt + 1000 * s.ttl))
  }

  /** The callback of an extension; there is no check of how long it took. */
  function OnExtendAnswer(s: State, a: Answer): State
    requires a.value < |s.calls|
  {
    var c := s.calls[a.value];
    if c.phase != Holding then s
    else if a.done then WithCall(s, a.value, c.(sureUntil := Max(c.sureUntil, a.sentAt + 1000 * s.ttl)))
    else WithPhase(s, a.value, GaveUp)
  }

  ghost predicate Enabled(s: State, step: Step) {
    match step
    case Tick(_) => true
    case TryLock => true
    case ServeSet(i) => i < |s.calls| && Unserved(s.calls[i])
    case DeliverSet(i) => i < |s.calls| && s.calls[i].phase.Answered?
    case Fail(i) => i < |s.calls| && (s.calls[i].phase.Asking? || s.calls[i].phase.Answered?)
    case Crash(i) => i < |s.calls|
    case SendExtend(i) => i < |s.calls| && s.calls[i].phase == Holding
    case SendRelease(i) => i < |s.calls| && (s.calls[i].phase.Holding? || s.calls[i].phase.GaveUp?)
    case Serve(k) => k < |s.requests| && s.requests[k].value < |s.calls|
    case DeliverExtend(k) => k < |s.answers| && s.answers[k].value < |s.calls|
    case LoseRequest(k) => k < |s.requests|
    case LoseAnswer(k) => k < |s.answers|
  }

  function Next(s: State, step: Step): State
    requires Enabled(s, step)
  {
    match step
    case Tick(d) => s.(now := s.now + d)
    case TryLock => s.(calls := s.calls + [Call(s.now, Asking, 0, 0, false)])
    case ServeSet(i) => Set(s, i)
    case DeliverSet(i) => OnSetAnswer(s, i)
    case Fail(i) => WithPhase(s, i, if s.calls[i].phase == Asking then Abandoned else Refused)
    case Crash(i) => WithPhase(s, i, if Unserved(s.calls[i]) then Abandoned else Crashed)
    case SendExtend(i) => s.(requests := s.requests + [Extend(i, s.now)])
    case SendRelease(i) => WithPhase(s, i, Released).(requests := s.requests + [Unlock(i)])
    case Serve(k) => RunRequest(s.(requests := Without(s.requests, k)), s.requests[k])
    case DeliverExtend(k) => OnExtendAnswer(s.(answers := Without(s.answers, k)), s.answers[k])
    case LoseRequest(k) => s.(requests := Without(s.requests, k))
    case LoseAnswer(k) => s.(answers := Without(s.answers, k))
  }

  /** The constructor's check of the time to live, in seconds. */
  predicate ValidTtl(ttl: nat) { 30 <= ttl < 1000 }

  function Start(ttl: nat): State { State(ttl, 0, None, [], [], []) }

  ghost predicate Reaches(ttl: nat, steps: seq<Step>, s: State)
    decreases |steps|
  {
    if steps == [] then s == Start(ttl)
    else exists r :: Reaches(ttl, Front(steps), r) && Enabled(r, Last(steps)) && s == Next(r, Last(steps))
  }

  // ----- the invariant -----

  ghost predicate CallInv(s: State, i: nat)
    requires i < |s.calls|
  {
    var c := s.calls[i];
    && c.startedAt <= s.now
    && (s.now < c.lease && !c.deleted ==> s.stored == Some(Stored(i, c.lease)))
    && (c.deleted ==> !c.phase.Holding? && !c.phase.Answered? && !Unserved(c))
    && (Unserved(c) ==> c.lease == 0)
    && (c.phase == Answered(true) ==> c.startedAt + 1000 * s.ttl <= c.lease)
    && (c.phase.Holding? ==> c.startedAt + 1000 * s.ttl <= c.sureUntil <= c.lease)
  }

  ghost predicate StoredInv(s: State) {
    s.stored.Some? ==>
      && s.stored.value.value < |s.calls|
      && s.stored.value.expiresAt == s.calls[s.stored.value.value].lease <= Lease(s)
      && !s.calls[s.stored.value.value].deleted
  }

  ghost predicate RequestInv(s: State, r: Request) {
    && r.value < |s.calls|
    && (r.Extend? ==> r.sentAt <= s.now && !Unserved(s.calls[r.value]))
    && (r.Unlock? ==>
          var p := s.calls[r.value].phase;
          p.GaveUp? || p.Released? || p.Crashed?)
  }

  ghost predicate AnswerInv(s: State, a: Answer) {
    && a.value < |s.calls| && !Unserved(s.calls[a.value])
    && (a.done ==> a.sentAt + 1000 * s.ttl <= s.calls[a.value].lease)
  }

  ghost predicate Inv(s: State) {
    && (forall i :: 0 <= i < |s.calls| ==> CallInv(s, i))
    && StoredInv(s)
    && (forall r :: r in s.requests ==> RequestInv(s, r))
    && (forall a :: a in s.answers ==> AnswerInv(s, a))
  }

  lemma NextKeeps(s: State, step: Step)
    requires Inv(s) && Enabled(s, step)
    ensures Inv(Next(s, step))
  {
    match step {
      case Serve(k) =>
        LoseKeeps(s, Next(s, LoseRequest(k)));
        assert RequestInv(s, s.requests[k]);
        match s.requests[k] {
          case Extend(i, sentAt) => ExtendKeeps(Next(s, LoseRequest(k)), i, sentAt);
          case Unlock(i) => UnlockKeeps(Next(s, LoseRequest(k)), i);
        }
      case DeliverExtend(k) =>
        LoseKeeps(s, Next(s, LoseAnswer(k)));
        assert AnswerInv(s, s.answers[k]);
        ExtendAnswerKeeps(Next(s, LoseAnswer(k)), s.answers[k]);
      case ServeSet(i) => SetKeeps(s, i);
      case DeliverSet(i) => SetAnswerKeeps(s, i);
      case LoseRequest(_) => LoseKeeps(s, Next(s, step));
      case LoseAnswer(_) => LoseKeeps(s, Next(s, step));
      case _ => CallerKeeps(s, step);
    }
  }

  lemma LoseKeeps(s: State, u: State)
    requires Inv(s) && u == s.(requests := u.requests, answers := u.answers)
    requires (forall r :: r in u.requests ==> r in s.requests) && (forall a :: a in u.answers ==> a in s.answers)
    ensures Inv(u)
  {
    forall j | 0 <= j < |u.calls| ensures CallInv(u, j) {
      assert CallInv(s, j);
    }
    forall r | r in u.requests ensures RequestInv(u, r) {
      assert RequestInv(s, r);
    }
    forall a | a in u.answers ensures AnswerInv(u, a) {
      assert AnswerInv(s, a);
    }
  }

  lemma CallerKeeps(s: State, step: Step)
    requires Inv(s) && Enabled(s, step)
    requires step.Tick? || step.TryLock? || step.Fail? || step.Crash? || step.SendExtend? || step.SendRelease?
    ensures Inv(Next(s, step))
  {
    var u := Next(s, step);
    forall j | 0 <= j < |u.calls| ensures CallInv(u, j) {
      assert j < |s.calls| ==> CallInv(s, j);
    }
    forall r | r in u.requests ensures RequestInv(u, r) {
      assert r in s.requests ==> RequestInv(s, r);
    }
    forall a | a in u.answers ensures AnswerInv(u, a) {
      assert a in s.answers ==> AnswerInv(s, a);
    }
  }

  lemma SetKeeps(s: State, i: nat)
    requires Inv(s) && i < |s.calls| && Unserved(s.calls[i])
    ensures Inv(Set(s, i))
  {
    var u := Set(s, i);
    assert CallInv(s, i);
    forall j | 0 <= j < |u.calls| ensures CallInv(u, j) {
      assert j < |s.calls| ==> CallInv(s, j);
    }
    forall r | r in u.requests ensures RequestInv(u, r) {
      assert r in s.requests ==> RequestInv(s, r);
    }
    forall a | a in u.answers ensures AnswerInv(u, a) {
      assert a in s.answers ==> AnswerInv(s, a);
    }
  }

  lemma SetAnswerKeeps(s: State, i: nat)
    requires Inv(s) && i < |s.calls| && s.calls[i].phase.Answered?
    ensures Inv(OnSetAnswer(s, i))
  {
    assert CallInv(s, i);
    var u := OnSetAnswer(s, i);
    forall j | 0 <= j < |u.calls| ensures CallInv(u, j) {
      assert j < |s.calls| ==> CallInv(s, j);
    }
    forall r | r in u.requests ensures RequestInv(u, r) {
      assert r in s.requests ==> RequestInv(s, r);
    }
    forall a | a in u.answers ensures AnswerInv(u, a) {
      assert a in s.answers ==> AnswerInv(s, a);
    }
  }

  lemma ExtendKeeps(s: State, i: nat, sentAt: nat)
    requires Inv(s) && i < |s.calls| && sentAt <= s.now && !Unserved(s.calls[i])
    ensures Inv(RunExtend(s, i, sentAt))
  {
    var u := RunExtend(s, i, sentAt);
    assert CallInv(s, i);
    forall j | 0 <= j < |u.calls| ensures CallInv(u, j) {
      assert j < |s.calls| ==> CallInv(s, j);
    }
    forall r | r in u.requests ensures RequestInv(u, r) {
      assert r in s.requests ==> RequestInv(s, r);
    }
    forall a | a in u.answers ensures AnswerInv(u, a) {
      assert a in s.answers ==> AnswerInv(s, a);
    }
  }

  lemma UnlockKeeps(s: State, i: nat)
    requires Inv(s) && RequestInv(s, Unlock(i))
    ensures Inv(RunUnlock(s, i))
  {
    var u := RunUnlock(s, i);
    assert CallInv(s, i);
    forall j | 0 <= j < |u.calls| ensures CallInv(u, j) {
      assert j < |s.calls| ==> CallInv(s, j);
    }
    forall r | r in u.requests ensures RequestInv(u, r) {
      assert r in s.requests ==> RequestInv(s, r);
    }
    forall a | a in u.answers ensures AnswerInv(u, a) {
      assert a in s.answers ==> AnswerInv(s, a);
    }
  }

  lemma ExtendAnswerKeeps(s: State, a: Answer)
    requires Inv(s) && AnswerInv(s, a)
    ensures Inv(OnExtendAnswer(s, a))
  {
    var u := OnExtendAnswer(s, a);
    assert CallInv(s, a.value);
    forall j | 0 <= j < |u.calls| ensures CallInv(u, j) {
      assert j < |s.calls| ==> CallInv(s, j);
    }
    forall r | r in u.requests ensures RequestInv(u, r) {
      assert r in s.requests ==> RequestInv(s, r);
    }
    forall b | b in u.answers ensures AnswerInv(u, b) {
      assert b in s.answers ==> AnswerInv(s, b);
    }
  }

  lemma {:induction false} ReachableInv(ttl: nat, steps: seq<Step>, s: State)
    requires Reaches(ttl, steps, s)
    ensures Inv(s) && s.ttl == ttl
    decreases |steps|
  {
    if steps != [] {
      var r :| Reaches(ttl, Front(steps), r) && Enabled(r, Last(steps)) && s == Next(r, Last(steps));
      ReachableInv(ttl, Front(steps), r);
      NextKeeps(r, Last(steps));
    }
  }

  // ----- what the lock promises -----

  /** The caller was told it has the lock, has not let go of it, and its lease is not over. */
  ghost predicate Inside(s: State, i: nat) {
    i < |s.calls| && s.calls[i].phase.Holding? && s.now < s.calls[i].lease
  }

  /** What the caller can tell from its own clock. */
  ghost predicate SureInside(s: State, i: nat) {
    i < |s.calls| && s.calls[i].phase.Holding? && s.now < s.calls[i].sureUntil
  }

  /** Mutual exclusion, in every interleaving. */
  lemma AtMostOneInside(ttl: nat, steps: seq<Step>, s: State, i: nat, j: nat)
    requires Reaches(ttl, steps, s) && Inside(s, i) && Inside(s, j)
    ensures i == j
  {
    ReachableInv(ttl, steps, s);
    assert CallInv(s, i) && CallInv(s, j);
  }

  /** Working only as long as one's own clock allows is enough. */
  lemma SureMeansInside(ttl: nat, steps: seq<Step>, s: State, i: nat)
    requires Reaches(ttl, steps, s) && SureInside(s, i)
    ensures Inside(s, i)
  {
    ReachableInv(ttl, steps, s);
    assert CallInv(s, i);
  }

  /** A caller that is told it got the lock still has its TTL less five seconds, and at least 25 seconds. */
  lemma ToldInTime(ttl: nat, steps: seq<Step>, s: State, i: nat)
    requires ValidTtl(ttl) && Reaches(ttl, steps, s) && Enabled(s, DeliverSet(i))
    requires Next(s, DeliverSet(i)).calls[i].phase.Holding?
    ensures var u := Next(s, DeliverSet(i));
      && u.calls[i].lease >= u.calls[i].sureUntil >= u.now + 1000 * ttl - 5000 >= u.now + 25000
      && Inside(u, i) && forall j :: Inside(u, j) ==> j == i
  {
    ReachableInv(ttl, steps, s);
    NextKeeps(s, DeliverSet(i));
    var u := Next(s, DeliverSet(i));
    assert CallInv(u, i);
    forall j | Inside(u, j) ensures j == i {
      assert CallInv(u, j);
    }
  }

  /** The steps that end or move the lease of call i itself: its own requests, its own decisions, and time. */
  ghost predicate ItsOwn(s: State, step: Step, i: nat)
    requires Enabled(s, step)
  {
    match step
    case Tick(_) => true
    case Serve(k) => s.requests[k].value == i
    case DeliverExtend(k) => s.answers[k].value == i
    case SendRelease(j) => j == i
    case Crash(j) => j == i
    case _ => false
  }

  /** No one else can take, extend or release the lock of a caller inside its lease, however late their requests are. */
  lemma OthersCannotTouch(ttl: nat, steps: seq<Step>, s: State, step: Step, i: nat)
    requires Reaches(ttl, steps, s) && Inside(s, i) && Enabled(s, step) && !ItsOwn(s, step, i)
    ensures Next(s, step).stored == s.stored == Some(Stored(i, s.calls[i].lease))
    ensures Inside(Next(s, step), i) && Next(s, step).calls[i] == s.calls[i]
  {
    ReachableInv(ttl, steps, s);
    assert CallInv(s, i);
    if step.DeliverSet? || step.Fail? {
      assert s.calls[i].phase.Holding?;
    }
  }

  /** After a crash nobody waits longer than one TTL: if the key is left alone that long, the next SET succeeds. */
  lemma LockComesFree(ttl: nat, steps: seq<Step>, s: State)
    requires Reaches(ttl, steps, s)
    ensures !Taken(s.stored, s.now + 1000 * ttl)
  {
    ReachableInv(ttl, steps, s);
  }

  // ----- the lock is had, given back and had again -----

  lemma TtlStays(ttl: nat, steps: seq<Step>, s: State)
    requires Reaches(ttl, steps, s)
    ensures s.ttl == ttl
  {
    ReachableInv(ttl, steps, s);
  }

  lemma KnownRequest(ttl: nat, steps: seq<Step>, s: State, k: nat)
    requires Reaches(ttl, steps, s) && k < |s.requests|
    ensures s.requests[k].value < |s.calls| && s.ttl == ttl
  {
    ReachableInv(ttl, steps, s);
    assert RequestInv(s, s.requests[k]);
  }

  /** A served SET takes a key that is not there or has expired, for one TTL, and no other. */
  lemma SetTakesFreeKey(ttl: nat, steps: seq<Step>, s: State, i: nat)
    requires Reaches(ttl, steps, s) && i < |s.calls| && s.calls[i].phase.Asking?
    ensures var u := Next(s, ServeSet(i));
      if Taken(s.stored, s.now) then u.stored == s.stored && u.calls[i].phase == Answered(false)
      else u.stored == Some(Stored(i, s.now + 1000 * ttl)) && u.calls[i].phase == Answered(true)
  {
    hide Reaches;
    TtlStays(ttl, steps, s);
  }

  /**
    A served extension gives a key that still holds the caller's value a whole TTL
    from now on and is answered with success; otherwise it leaves the key alone
    and is answered with failure.
  */
  lemma ExtensionServed(ttl: nat, steps: seq<Step>, s: State, k: nat, i: nat, sentAt: nat)
    requires Reaches(ttl, steps, s) && k < |s.requests| && s.requests[k] == Extend(i, sentAt)
    ensures Enabled(s, Serve(k))
    ensures var u := Next(s, Serve(k));
      && u.answers == s.answers + [Extended(i, sentAt, OwnsFor(s, i, 0))]
      && u.stored == if OwnsFor(s, i, 0) then Some(Stored(i, s.now + 1000 * ttl)) else s.stored
  {
    hide Reaches, Inv;
    KnownRequest(ttl, steps, s, k);
  }

  /** The key holds the value of call i and does so for at least another d milliseconds. */
  predicate OwnsFor(s: State, i: nat, d: nat) { Owns(s.stored, s.now + d, i) }

  /**
    A served release frees the key if it still holds the caller's value, so that
    whichever SET is served next gets the lock; otherwise it leaves the key alone.
  */
  lemma ReleaseServed(ttl: nat, steps: seq<Step>, s: State, k: nat, i: nat)
    requires Reaches(ttl, steps, s) && k < |s.requests| && s.requests[k] == Unlock(i)
    ensures Enabled(s, Serve(k))
    ensures var u := Next(s, Serve(k));
      if OwnsFor(s, i, 0) then
        u.stored.None? && forall j :: 0 <= j < |u.calls| && u.calls[j].phase.Asking? ==> GetsLock(u, j)
      else u.stored == s.stored
  {
    hide Reaches, Inv;
    KnownRequest(ttl, steps, s, k);
  }

  /** A SET of call i that is served now is answered with the lock. */
  ghost predicate GetsLock(s: State, i: nat)
    requires i < |s.calls| && s.calls[i].phase.Asking?
  {
    var u := Next(s, ServeSet(i));
    u.calls[i].phase == Answered(true) && u.stored == Some(Stored(i, s.now + 1000 * s.ttl))
  }

  /** A caller gives the lock back: it lets go of it, or Redis said OK too late for it. */
  ghost predicate GivesBack(s: State, step: Step, i: nat) {
    && i < |s.calls|
    && match step
       case SendRelease(j) => j == i && s.calls[i].phase.Holding?
       case DeliverSet(j) => j == i && s.calls[i].phase == Answered(true) && s.now - s.calls[i].startedAt > 5000
       case _ => false
  }

  /** Both send a release, neither goes on with the lock; and the key is the caller's as long as its lease runs. */
  lemma GivingBackSends(ttl: nat, steps: seq<Step>, s: State, step: Step, i: nat)
    requires Reaches(ttl, steps, s) && GivesBack(s, step, i)
    ensures Enabled(s, step)
    ensures var u := Next(s, step);
      && u.requests == s.requests + [Unlock(i)] && !u.calls[i].phase.Holding?
      && u.stored == s.stored && u.now == s.now && |u.calls| == |s.calls|
    ensures forall d :: 0 <= d < s.calls[i].lease - s.now ==> OwnsFor(s, i, d)
  {
    ReachableInv(ttl, steps, s);
    assert CallInv(s, i);
  }

  /**
    The lock changes hands: whoever gives it back, if the release is served before
    the lease is over, a call made right then has the lock, and is told so if the
    answer takes no longer than five seconds, a lock's whole TTL before it expires.
  */
  lemma LockChangesHands(ttl: nat, before: seq<Step>, s: State, step: Step, i: nat, d: nat, e: nat)
    returns (steps: seq<Step>, t: State)
    requires Reaches(ttl, before, s) && GivesBack(s, step, i) && s.now + d < s.calls[i].lease
    requires e <= 5000 && e < 1000 * ttl
    ensures Reaches(ttl, steps, t) && t.now == s.now + d + e
    ensures Inside(t, |s.calls|) && t.calls[|s.calls|].lease == s.now + d + 1000 * ttl
    ensures forall j :: Inside(t, j) ==> j == |s.calls|
  {
    var k, n := |s.requests|, |s.calls|;
    GivingBackSends(ttl, before, s, step, i);
    hide Reaches, Inv;
    var u: State;
    steps, u := Run(ttl, before, s, step);
    steps, u := Run(ttl, steps, u, Tick(d));
    assert u.requests[k] == Unlock(i) && OwnsFor(s, i, d);
    ReleaseServed(ttl, steps, u, k, i);
    steps, u := Run(ttl, steps, u, Serve(k));
    steps, t := NewCallGets(ttl, steps, u, e);
    forall j | Inside(t, j) ensures j == n {
      AtMostOneInside(ttl, steps, t, j, n);
    }
  }

  lemma NewCallGets(ttl: nat, before: seq<Step>, s: State, e: nat) returns (steps: seq<Step>, t: State)
    requires Reaches(ttl, before, s) && !Taken(s.stored, s.now) && e <= 5000 && e < 1000 * ttl
    ensures Reaches(ttl, steps, t) && t.now == s.now + e
    ensures Inside(t, |s.calls|) && t.calls[|s.calls|].lease == s.now + 1000 * ttl
  {
    var n, u := |s.calls|, s;
    ReachableInv(ttl, before, s);
    hide Reaches, Inv;
    steps, u := Run(ttl, before, s, TryLock);
    assert u.calls[n] == Call(s.now, Asking, 0, 0, false);
    steps, u := Run(ttl, steps, u, ServeSet(n));
    assert u.calls[n] == Call(s.now, Answered(true), s.now + 1000 * ttl, 0, false);
    steps, u := Run(ttl, steps, u, Tick(e));
    steps, t := Run(ttl, steps, u, DeliverSet(n));
  }

  /**
    An extension is confirmed without looking at the time it took. If that was
    less than the TTL, the caller is inside its lease, alone, and has at least
    the rest of the TTL; `ExtensionCanBeConfirmedTooLate` shows that this bound
    cannot be moved.
  */
  lemma ExtensionConfirmed(ttl: nat, steps: seq<Step>, s: State, k: nat)
    requires Reaches(ttl, steps, s) && Enabled(s, DeliverExtend(k))
    requires s.answers[k].done && s.calls[s.answers[k].value].phase.Holding?
    ensures var a, u := s.answers[k], Next(s, DeliverExtend(k));
      && u.calls[a.value].lease >= u.calls[a.value].sureUntil >= a.sentAt + 1000 * ttl
      && (u.now - a.sentAt < 1000 * ttl ==> Inside(u, a.value) && forall j :: Inside(u, j) ==> j == a.value)
  {
    ReachableInv(ttl, steps, s);
    NextKeeps(s, DeliverExtend(k));
    var a, u := s.answers[k], Next(s, DeliverExtend(k));
    assert CallInv(u, a.value);
    forall j | u.now - a.sentAt < 1000 * ttl && Inside(u, j) ensures j == a.value {
      assert CallInv(u, j);
    }
  }

  /**
    Whatever the TTL, and however much time from it on an extension takes, there
    is a run in which the caller is told that it worked, still holds what it
    thinks is the lock, and is outside its lease, while another caller is inside.
  */
  lemma ExtensionCanBeConfirmedTooLate(ttl: nat, d: nat) returns (steps: seq<Step>, s: State)
    requires 0 < ttl && 1000 * ttl <= d
    ensures Reaches(ttl, steps, s) && Enabled(s, DeliverExtend(0))
    ensures var a := s.answers[0]; a.value == 0 && a.done && s.now - a.sentAt == d
    ensures s.calls[0].phase.Holding?
    ensures var u := Next(s, DeliverExtend(0)); u.calls[0].phase.Holding? && !Inside(u, 0) && Inside(u, 1)
  {
    steps, s := FirstTakesAndExtends(ttl);
    steps, s := SecondTakes(ttl, d, steps, s);
  }

  function FirstCall(ttl: nat): Call { Call(0, Holding, 1000 * ttl, 1000 * ttl, false) }

  lemma SecondTakes(ttl: nat, d: nat, before: seq<Step>, r: State) returns (steps: seq<Step>, s: State)
    requires 0 < ttl && 1000 * ttl <= d && Reaches(ttl, before, r)
    requires r == State(ttl, 0, Some(Stored(0, 1000 * ttl)), [FirstCall(ttl)], [], [Extended(0, 0, true)])
    ensures Reaches(ttl, steps, s) && s.ttl == ttl && s.now == d && s.answers == [Extended(0, 0, true)]
    ensures s.calls == [FirstCall(ttl), Call(d, Holding, d + 1000 * ttl, d + 1000 * ttl, false)]
  {
    hide Reaches;
    steps, s := Run(ttl, before, r, Tick(d));
    steps, s := Run(ttl, steps, s, TryLock);
    assert s.calls == [FirstCall(ttl), Call(d, Asking, 0, 0, false)];
    steps, s := Run(ttl, steps, s, ServeSet(1));
    assert s.calls == [FirstCall(ttl), Call(d, Answered(true), d + 1000 * ttl, 0, false)];
    steps, s := Run(ttl, steps, s, DeliverSet(1));
  }

  /** The first caller has the lock, and an extension of it served at time 0 whose answer is on its way. */
  lemma FirstTakesAndExtends(ttl: nat) returns (steps: seq<Step>, s: State)
    requires 0 < ttl
    ensures Reaches(ttl, steps, s)
    ensures s == State(ttl, 0, Some(Stored(0, 1000 * ttl)), [FirstCall(ttl)], [], [Extended(0, 0, true)])
  {
    hide Reaches;
    steps, s := FirstTakes(ttl);
    assert s.requests + [Extend(0, 0)] == [Extend(0, 0)];
    steps, s := Run(ttl, steps, s, SendExtend(0));
    assert Without([Extend(0, 0)], 0) == [];
    steps, s := Run(ttl, steps, s, Serve(0));
  }

  lemma FirstTakes(ttl: nat) returns (steps: seq<Step>, s: State)
    requires 0 < ttl
    ensures Reaches(ttl, steps, s)
    ensures s == State(ttl, 0, Some(Stored(0, 1000 * ttl)), [FirstCall(ttl)], [], [])
  {
    assert Reaches(ttl, [], Start(ttl));
    hide Reaches;
    steps, s := Run(ttl, [], Start(ttl), TryLock);
    steps, s := Run(ttl, steps, s, ServeSet(0));
    assert s.calls[0] == Call(0, Answered(true), 1000 * ttl, 0, false);
    steps, s := Run(ttl, steps, s, DeliverSet(0));
  }

  lemma Run(ttl: nat, before: seq<Step>, r: State, step: Step) returns (steps: seq<Step>, s: State)
    requires Reaches(ttl, before, r) && Enabled(r, step)
    ensures Reaches(ttl, steps, s) && s == Next(r, step)
  {
    steps, s := before + [step], Next(r, step);
    assert Front(steps) == before && Last(steps) == step;
  }
}
