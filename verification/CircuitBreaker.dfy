/**
 * The circuit breaker (internal/middleware/circuitbreaker.go).
 *
 * Execute has two critical sections, one before and one after the protected call; they are the methods
 * Begin and End here, so calls may start, finish late and be reset in any order.  The log records the
 * critical sections in the order in which they ran; the three-state breaker must agree with two
 * numbers read off that log.
 */
module CircuitBreaker {

  /** Times and durations are in nanoseconds. */
  const DEFAULT_THRESHOLD: nat := 5
  const DEFAULT_COOLDOWN: nat := 30_000_000_000

  datatype State = Closed | Open | HalfOpen

  datatype Event = Started(at: int) | Failed(at: int) | Succeeded(at: int) | WasReset

  // ----- the two-variable specification -----

  /** Failures completed since the last success or reset. */
  function Failures(log: seq<Event>): nat {
    if log == [] then 0
    else
      var before := log[..|log| - 1];
      match log[|log| - 1]
      case Started(_) => Failures(before)
      case Failed(_) => Failures(before) + 1
      case Succeeded(_) => 0
      case WasReset => 0
  }

  /** When the most recent failure completed; 0 stands for the zero time before any failure. */
  function LastFailure(log: seq<Event>): int {
    if log == [] then 0
    else if log[|log| - 1].Failed? then log[|log| - 1].at
    else LastFailure(log[..|log| - 1])
  }

  predicate Refuses(threshold: nat, cooldown: nat, log: seq<Event>, now: int) {
    Failures(log) >= threshold && now - LastFailure(log) <= cooldown
  }

  /** A failing probe after the cooldown closes the door again for a full cooldown. */
  lemma FailedProbeRefusesAgain(threshold: nat, cooldown: nat, log: seq<Event>, started: int, failed: int, now: int)
    requires Failures(log) >= threshold
    ensures Refuses(threshold, cooldown, log + [Started(started)] + [Failed(failed)], now) <==> now - failed <= cooldown
  {
    var l1 := log + [Started(started)];
    var l2 := l1 + [Failed(failed)];
    assert l1[..|l1| - 1] == log && l2[..|l2| - 1] == l1;
    assert Failures(l1) == Failures(log);
  }

  // ----- the two numbers, read off the events -----

  predicate Clears(e: Event) {
    e.Succeeded? || e.WasReset?
  }

  /** No success and no reset comes after position `i`. */
  predicate Uncleared(log: seq<Event>, i: int) {
    forall j :: i < j < |log| && 0 <= j ==> !Clears(log[j])
  }

  /** The positions of the failures that no success and no reset follows. */
  function FailedSince(log: seq<Event>): set<int> {
    set i | 0 <= i < |log| && log[i].Failed? && Uncleared(log, i)
  }

  /** The count is the number of failures after the last success or reset. */
  lemma {:induction false} FailuresCounted(log: seq<Event>)
    ensures Failures(log) == |FailedSince(log)|
  {
    if log == [] {
      assert FailedSince(log) == {};
    } else {
      var last := |log| - 1;
      var before := log[..last];
      FailuresCounted(before);
      if Clears(log[last]) {
        assert forall i :: 0 <= i < last ==> !Uncleared(log, i);
        assert FailedSince(log) == {};
      } else {
        forall i | 0 <= i < last ensures Uncleared(log, i) <==> Uncleared(before, i) {
          if Uncleared(log, i) {
            forall j | i < j < |before| && 0 <= j ensures !Clears(before[j]) { assert before[j] == log[j]; }
          }
        }
        assert Uncleared(log, last);
        assert FailedSince(log) == if log[last].Failed? then FailedSince(before) + {last} else FailedSince(before);
      }
    }
  }

  /** Position `k` holds the most recent failure. */
  predicate LastFailedAt(log: seq<Event>, k: int) {
    0 <= k < |log| && log[k].Failed? && forall j :: k < j < |log| ==> !log[j].Failed?
  }

  lemma {:induction false} LastFailureFound(log: seq<Event>) returns (k: int)
    ensures if (forall j :: 0 <= j < |log| ==> !log[j].Failed?) then LastFailure(log) == 0
            else LastFailedAt(log, k) && LastFailure(log) == log[k].at
  {
    k := 0;
    if log != [] {
      if log[|log| - 1].Failed? {
        k := |log| - 1;
      } else {
        var before := log[..|log| - 1];
        k := LastFailureFound(before);
        assert forall j :: 0 <= j < |before| ==> before[j] == log[j];
      }
    }
  }

  /**
   * A call is refused exactly when at least `threshold` failures completed after the last success or reset
   * and the most recent failure is no further back than the cooldown.
   */
  lemma RefusesIff(threshold: nat, cooldown: nat, log: seq<Event>, now: int)
    requires threshold > 0
    ensures Refuses(threshold, cooldown, log, now) <==>
      && |FailedSince(log)| >= threshold
      && exists k :: LastFailedAt(log, k) && now - log[k].at <= cooldown
  {
    FailuresCounted(log);
    var k := LastFailureFound(log);
    if |FailedSince(log)| >= threshold {
      assert FailedSince(log) != {};
      var i :| i in FailedSince(log);
      assert log[i].Failed?;
      assert LastFailedAt(log, k);
      assert forall k' :: LastFailedAt(log, k') ==> k' == k;
    }
  }

  /** A success or a reset makes everything before it as if it had never been. */
  lemma {:induction false} ClearedFailures(log: seq<Event>, clear: Event, tail: seq<Event>)
    requires Clears(clear)
    ensures Failures(log + [clear] + tail) == Failures(tail)
  {
    var all := log + [clear] + tail;
    if tail == [] {
      assert all[|all| - 1] == clear;
    } else {
      assert all[..|all| - 1] == log + [clear] + tail[..|tail| - 1];
      assert all[|all| - 1] == tail[|tail| - 1];
      ClearedFailures(log, clear, tail[..|tail| - 1]);
    }
  }

  function FailedIn(log: seq<Event>): nat {
    |set i | 0 <= i < |log| && log[i].Failed?|
  }

  lemma FailuresAreFailed(log: seq<Event>)
    ensures Failures(log) <= FailedIn(log)
  {
    FailuresCounted(log);
    SubsetSmaller(FailedSince(log), set i | 0 <= i < |log| && log[i].Failed?);
  }

  lemma {:induction false} SubsetSmaller(a: set<int>, b: set<int>)
    requires a <= b
    ensures |a| <= |b|
    decreases |a|
  {
    if a != {} {
      assert (forall x :: x !in a) ==> a == {};
      var x :| x in a;
      SubsetSmaller(a - {x}, b - {x});
    }
  }

  /** After a success or a reset, fewer than `threshold` failures admit every call, whatever happened before. */
  lemma ForgivenAfterClear(
      threshold: nat, cooldown: nat, log: seq<Event>, clear: Event, tail: seq<Event>, now: int)
    requires Clears(clear) && FailedIn(tail) < threshold
    ensures !Refuses(threshold, cooldown, log + [clear] + tail, now)
  {
    ClearedFailures(log, clear, tail);
    FailuresAreFailed(tail);
  }

  // ----- the breaker -----

  class CircuitBreaker {
    var state: State
    var failureCount: nat
    var lastFailureTime: int
    const threshold: nat
    const cooldown: nat
    ghost var log: seq<Event>
    ghost var clock: int

    ghost predicate Valid()
      reads this
    {
      && threshold > 0
      && failureCount == Failures(log)
      && lastFailureTime == LastFailure(log)
      && (state == Closed <==> failureCount < threshold)
      && (state == HalfOpen ==> clock - lastFailureTime > cooldown)
    }

    constructor (threshold: int, cooldown: int)
      ensures Valid() && log == []
      ensures this.threshold == if threshold <= 0 then 5 else threshold
      ensures this.cooldown == if cooldown <= 0 then 30_000_000_000 else cooldown
    {
      this.threshold := if threshold <= 0 then DEFAULT_THRESHOLD else threshold;
      this.cooldown := if cooldown <= 0 then DEFAULT_COOLDOWN else cooldown;
      state, failureCount, lastFailureTime := Closed, 0, 0;
      log, clock := [], 0;
    }

    /** The critical section before the call. */
    method Begin(now: int) returns (admitted: bool)
      requires Valid() && clock <= now
      modifies this
      ensures Valid() && clock == now
      ensures !admitted <==>
        && |FailedSince(old(log))| >= threshold
        && exists k :: LastFailedAt(old(log), k) && now - old(log)[k].at <= cooldown
      ensures log == if admitted then old(log) + [Started(now)] else old(log)
    {
      RefusesIff(threshold, cooldown, log, now);
      clock := now;
      if state == Open {
        if now - lastFailureTime > cooldown {
          state := HalfOpen;
        } else {
          return false;
        }
      }
      log := log + [Started(now)];
      return true;
    }

    /** The critical section after the call. */
    method End(now: int, failed: bool)
      requires Valid() && clock <= now
      modifies this
      ensures Valid() && clock == now
      ensures log == old(log) + [if failed then Failed(now) else Succeeded(now)]
    {
      clock := now;
      log := log + [if failed then Failed(now) else Succeeded(now)];
      if failed {
        failureCount := failureCount + 1;
        lastFailureTime := now;
        if failureCount >= threshold {
          state := Open;
        }
        return;
      }
      failureCount := 0;
      state := Closed;
    }

    method Reset()
      requires Valid()
      modifies this
      ensures Valid() && clock == old(clock) && log == old(log) + [WasReset]
      ensures state == Closed && failureCount == 0
    {
      log := log + [WasReset];
      state := Closed;
      failureCount := 0;
    }
  }
}
