/**
  Waiting for the Redis lock (redis-wrapper: RedisLocker.js lines 151-180): try,
  wait, try again, with waits that double up to a second, and give up after ten
  seconds. What each try answers, and how long it takes, is up to the rest of
  the world and given as functions of its number.
*/
module LockWait {
  import opened Common

  const LOCK_TEST_INTERVAL: nat := 50
  const MAX_TEST_INTERVAL: nat := 1000
  const MAX_LOCK_WAIT_TIME: nat := 10000

  datatype Try = Busy | Got(value: nat) | Broken

  datatype WaitError = Timeout | TryFailed

  /** The wait after try k. */
  function Interval(k: nat): nat {
    if k == 0 then LOCK_TEST_INTERVAL else Min(2 * Interval(k - 1), MAX_TEST_INTERVAL)
  }

  /** When try k would start, if all tries before it were answered "busy". */
  function StartOf(took: nat -> nat, k: nat): nat {
    if k == 0 then 0 else StartOf(took, k - 1) + took(k - 1) + Interval(k - 1)
  }

  lemma {:induction false} WaitsGrow(took: nat -> nat, k: nat)
    requires k >= 5
    ensures Interval(k) == 1000 && StartOf(took, k) >= 1550 + 1000 * (k - 5)
  {
    if k == 5 {
      assert Interval(1) == 100 && Interval(2) == 200 && Interval(3) == 400 && Interval(4) == 800;
      assert StartOf(took, 1) >= 50 && StartOf(took, 2) >= 150 && StartOf(took, 3) >= 350 && StartOf(took, 4) >= 750;
    } else {
      WaitsGrow(took, k - 1);
    }
  }

  /** However fast the answers are, the fifteenth try would start too late. */
  lemma AtMostFourteenTries(took: nat -> nat, k: nat)
    requires StartOf(took, k) <= MAX_LOCK_WAIT_TIME
    ensures k < 14
  {
    if k >= 5 { WaitsGrow(took, k); }
  }

  ghost predicate AllBusy(answer: nat -> Try, took: nat -> nat, n: nat) {
    forall k :: 0 <= k < n ==> answer(k) == Busy && StartOf(took, k) <= MAX_LOCK_WAIT_TIME
  }

  /** Try k starts in time and is the one that decides. */
  ghost predicate Ends(answer: nat -> Try, took: nat -> nat, k: nat, r: Result<nat, WaitError>) {
    && StartOf(took, k) <= MAX_LOCK_WAIT_TIME
    && match answer(k)
       case Busy => false
       case Got(value) => r == Ok(value)
       case Broken => r == Err(TryFailed)
  }

  /**
    The answer is that of the first try that is not "busy" among those that start
    within ten seconds; if there is none, it is a timeout, after at most 14 tries.
  */
  method GetLock(answer: nat -> Try, took: nat -> nat) returns (r: Result<nat, WaitError>, tries: nat)
    ensures tries <= 14
    ensures r == Err(Timeout) ==> AllBusy(answer, took, tries) && StartOf(took, tries) > MAX_LOCK_WAIT_TIME
    ensures r != Err(Timeout) ==> tries > 0 && AllBusy(answer, took, tries - 1) && Ends(answer, took, tries - 1, r)
  {
    var now, testInterval := 0, LOCK_TEST_INTERVAL;
    tries := 0;
    while true
      invariant now == StartOf(took, tries) && testInterval == Interval(tries)
      invariant tries <= 14
      invariant AllBusy(answer, took, tries)
      decreases 14 - tries
    {
      if now > MAX_LOCK_WAIT_TIME {
        return Err(Timeout), tries;
      }
      AtMostFourteenTries(took, tries);
      var k := tries;
      tries := tries + 1;
      match answer(k) {
        case Broken => return Err(TryFailed), tries;
        case Got(value) => return Ok(value), tries;
        case Busy =>
          now := now + took(k) + testInterval;
          testInterval := Min(2 * testInterval, MAX_TEST_INTERVAL);
      }
    }
  }
}
