/**
 The timer that keeps frames on the monitor's refresh grid.

 Times are whole nanoseconds, as the clock gives them; the elapsed time is cut to microseconds
 before the remainder is taken, and refresh intervals are whole microseconds.
 */
module FrameTimer {
  import opened Arithmetic

  datatype State = State(base: int, lastSynced: int, interval: nat) {

    /** Refresh intervals after `base` of the last sync point, rounded down. */
    function Tick(): int
      requires interval > 0
    {
      (lastSynced - base) / interval
    }

    /** How far the last sync point lies after its tick. */
    function Phase(): int
      requires interval > 0
    {
      (lastSynced - base) % interval
    }

    /** The last sync point is on a tick, up to less than one microsecond. */
    predicate OnGrid() {
      interval > 0 && interval % 1000 == 0 && Tick() >= 0 && Phase() < 1000
    }
  }

  predicate ValidInterval(interval: nat) {
    interval > 0 && interval % 1000 == 0
  }

  /** Otherwise a remainder by zero is taken. */
  predicate Defined(s: State, interval: nat, now: int) {
    Resyncs(s, interval, now) ==> interval >= 1000
  }

  /** The state after `compute_timeout` at time `now`, and the timeout. */
  function Compute(s: State, interval: nat, now: int): (State, int)
    requires Defined(s, interval, now)
  {
    if s.interval != interval then (State(now, now, interval), interval)
    else
      var nextFrame := s.lastSynced + interval;
      if nextFrame < now then
        (s.(lastSynced := now - 1000 * (ElapsedMicros(s.base, now) % (interval / 1000))), 0)
      else (s.(lastSynced := nextFrame), nextFrame - now)
  }

  /** Differences of times are never negative. */
  function ElapsedMicros(base: int, now: int): nat {
    if now >= base then (now - base) / 1000 else 0
  }

  /** The call finds that a frame was missed and starts again from the current time. */
  predicate Resyncs(s: State, interval: nat, now: int) {
    s.interval == interval && s.lastSynced + interval < now
  }

  /**
   The timeout of a call ends when the next frame is due, or at once if that has passed; then the last
   sync point is less than an interval old. A call with another interval waits for one interval.
   */
  lemma TimeoutEndsAtNextFrame(s: State, interval: nat, now: int)
    requires Defined(s, interval, now)
    ensures var (s', timeout) := Compute(s, interval, now);
            && s'.interval == interval
            && if s.interval != interval then
                 timeout == interval && s'.base == s'.lastSynced == now
               else
                 && now + timeout == Max(now, s.lastSynced + interval) && s'.base == s.base
                 && if s.lastSynced + interval < now then now - interval < s'.lastSynced <= now
                    else s'.lastSynced == s.lastSynced + interval
  {
  }

  class FrameTimer {
    var base: int
    var lastSynced: int
    var interval: nat

    function View(): State
      reads this
    {
      State(base, lastSynced, interval)
    }

    constructor (now: int)
      ensures View() == State(now, now, 0)
    {
      base, lastSynced, interval := now, now, 0;
    }

    method ComputeTimeout(refreshInterval: nat, now: int) returns (timeout: int)
      requires Defined(View(), refreshInterval, now)
      modifies this
      ensures (View(), timeout) == Compute(old(View()), refreshInterval, now)
      ensures interval == refreshInterval
      ensures old(interval) != refreshInterval ==> timeout == refreshInterval && base == lastSynced == now
      ensures old(interval) == refreshInterval ==>
                && now + timeout == Max(now, old(lastSynced) + refreshInterval)
                && base == old(base)
                && if old(lastSynced) + refreshInterval < now then now - refreshInterval < lastSynced <= now
                   else lastSynced == old(lastSynced) + refreshInterval
    {
      if interval != refreshInterval {
        base := now;
        lastSynced := now;
        interval := refreshInterval;
        return refreshInterval;
      }

      var nextFrame := lastSynced + interval;
      if nextFrame < now {
        var elapsedMicros := ElapsedMicros(base, now);
        var refreshMicros := interval / 1000;
        lastSynced := now - 1000 * (elapsedMicros % refreshMicros);
        timeout := 0;
      } else {
        lastSynced := nextFrame;
        timeout := nextFrame - now;
      }
    }
  }

  // ----- Arithmetic -----

  /** Taking away the remainder of the microseconds leaves whole intervals and the nanoseconds. */
  lemma CutElapsed(elapsed: int, interval: nat)
    requires elapsed >= 0 && ValidInterval(interval)
    ensures interval / 1000 > 0
    ensures var cut := elapsed - 1000 * ((elapsed / 1000) % (interval / 1000));
            cut / interval == elapsed / interval && cut % interval == elapsed % 1000
  {
    var micros, nanos, r := elapsed / 1000, elapsed % 1000, interval / 1000;
    var q, rest := micros / r, micros % r;
    assert micros == q * r + rest;
    assert 1000 * (q * r) == q * interval by {
      assert interval == 1000 * r;
    }
    DivModUnique(elapsed - 1000 * rest, interval, q, nanos);
    DivModUnique(elapsed, interval, q, 1000 * rest + nanos);
  }

  // ----- One call -----

  /**
   Every sync point stays on the grid. A call with another interval starts a new grid; any other
   call moves at least one tick, and its phase is kept, or set to the time's part below a
   microsecond when the call resyncs.
   */
  lemma CallStaysOnGrid(s: State, interval: nat, now: int)
    requires ValidInterval(interval) && now >= s.base
    requires s.interval == interval ==> s.OnGrid()
    ensures var s' := Compute(s, interval, now).0;
            && s'.OnGrid()
            && (s.interval != interval ==> s'.base == now && s'.Tick() == 0 && s'.Phase() == 0)
            && (s.interval == interval ==>
                  && s'.base == s.base && s'.Tick() >= s.Tick() + 1
                  && s'.Phase() == if Resyncs(s, interval, now) then (now - s.base) % 1000
                                   else s.Phase())
  {
    var s' := Compute(s, interval, now).0;
    if s.interval != interval {
      DivModUnique(0, interval, 0, 0);
    } else {
      var tick, phase := s.Tick(), s.Phase();
      assert s.lastSynced - s.base == tick * interval + phase;
      DivModUnique(s.lastSynced + interval - s.base, interval, tick + 1, phase);
      if Resyncs(s, interval, now) {
        CutElapsed(now - s.base, interval);
        QuotientAtLeast(now - s.base, interval, tick + 1);
      }
    }
  }

  /** A call moves the sync point by a whole interval, unless resyncing to the next tick shortens it. */
  lemma AdvancesByInterval(s: State, interval: nat, now: int)
    requires s.OnGrid() && s.interval == interval && now >= s.base
    ensures var s' := Compute(s, interval, now).0;
            && s'.lastSynced - s.lastSynced > interval - 1000
            && (s'.lastSynced - s.lastSynced >= interval
                <==> (Resyncs(s, interval, now) && (now - s.base) / interval == s.Tick() + 1
                      ==> (now - s.base) % 1000 >= s.Phase()))
  {
    CallStaysOnGrid(s, interval, now);
    var s' := Compute(s, interval, now).0;
    SyncDistance(s, s');
    CutElapsed(now - s.base, interval);
    var k := s'.Tick() - s.Tick();
    if k == 1 {
      assert k * interval == interval;
    } else {
      MulMonotonic(2, k, interval);
    }
  }

  lemma SyncDistance(s: State, s': State)
    requires s.interval == s'.interval > 0 && s.base == s'.base
    ensures s'.lastSynced - s.lastSynced
         == (s'.Tick() - s.Tick()) * s.interval + (s'.Phase() - s.Phase())
  {
    assert s.lastSynced - s.base == s.Tick() * s.interval + s.Phase();
    assert s'.lastSynced - s.base == s'.Tick() * s.interval + s'.Phase();
  }

  /**
   At 60 Hz, three calls at 0, 16666.999 and 33333 microseconds: the last one comes to the next tick
   at an earlier part of its microsecond and moves by 16665.001 microseconds.
   */
  lemma ShortAdvance()
    ensures var interval := 16_666_000;
            var s0 := Compute(State(0, 0, 0), interval, 0).0;
            var s1 := Compute(s0, interval, 16_666_999).0;
            var s2 := Compute(s1, interval, 33_333_000).0;
            s1.lastSynced == 16_666_999 && s2.lastSynced == s1.lastSynced + 16_665_001
  {
    assert ElapsedMicros(0, 16_666_999) % 16_666 == 0;
    assert ElapsedMicros(0, 33_333_000) % 16_666 == 1;
  }

  // ----- Runs of calls -----

  /** The state after the first n calls, which all use one interval. */
  function Run(s: State, interval: nat, times: seq<int>, n: nat): State
    requires ValidInterval(interval) && n <= |times|
  {
    if n == 0 then s else Compute(Run(s, interval, times, n - 1), interval, times[n - 1]).0
  }

  function Timeout(s: State, interval: nat, times: seq<int>, n: nat): int
    requires ValidInterval(interval) && n < |times|
  {
    Compute(Run(s, interval, times, n), interval, times[n]).1
  }

  /** Each call comes after the timeout that the call before it returned has passed. */
  predicate WaitsOut(s: State, interval: nat, times: seq<int>)
    requires ValidInterval(interval)
  {
    forall n :: 0 <= n < |times| - 1 ==> times[n] + Timeout(s, interval, times, n) <= times[n + 1]
  }

  /** After n + 1 waiting calls, the last at `now`: at least n ticks, the last one at `ready`. */
  predicate Throttled(s: State, interval: nat, start: int, n: nat, ready: int) {
    && s.OnGrid() && s.interval == interval && s.base == start && s.Tick() >= n
    && s.lastSynced <= ready
  }

  /** A throttled caller that has waited knows that n intervals have passed. */
  lemma WaitedIntervals(s: State, interval: nat, start: int, n: nat, ready: int, now: int)
    requires Throttled(s, interval, start, n, ready) && ready <= now
    ensures n * interval <= now - start
    ensures n <= (now - start) / interval
  {
    assert s.lastSynced - s.base == s.Tick() * interval + s.Phase();
    MulMonotonic(n, s.Tick(), interval);
    MulMonotonic(0, n, interval);
    QuotientAtLeast(now - start, interval, n);
  }

  lemma WaitingCall(s: State, interval: nat, start: int, n: nat, ready: int, now: int)
    requires ValidInterval(interval) && Throttled(s, interval, start, n, ready) && ready <= now
    ensures var (s', timeout) := Compute(s, interval, now);
            0 <= timeout <= interval && Throttled(s', interval, start, n + 1, now + timeout)
  {
    MulMonotonic(0, n, interval);
    WaitedIntervals(s, interval, start, n, ready, now);
    CallStaysOnGrid(s, interval, now);
  }

  /** The call that starts a grid. */
  lemma FirstCall(s: State, interval: nat, now: int)
    requires ValidInterval(interval) && s.interval != interval
    ensures var (s', timeout) := Compute(s, interval, now);
            timeout == interval && Throttled(s', interval, now, 0, now + timeout)
  {
    DivModUnique(0, interval, 0, 0);
  }

  lemma {:induction false} StaysThrottled(s: State, interval: nat, times: seq<int>, n: nat)
    requires ValidInterval(interval) && s.interval != interval && WaitsOut(s, interval, times)
    requires n < |times|
    ensures 0 <= Timeout(s, interval, times, n) <= interval
    ensures Throttled(Run(s, interval, times, n + 1), interval, times[0], n,
                      times[n] + Timeout(s, interval, times, n))
  {
    var before := Run(s, interval, times, n);
    if n == 0 {
      FirstCall(before, interval, times[0]);
    } else {
      StaysThrottled(s, interval, times, n - 1);
      WaitingCall(before, interval, times[0], n - 1,
                  times[n - 1] + Timeout(s, interval, times, n - 1), times[n]);
    }
  }

  /**
   Callers that wait out each timeout are throttled to the refresh rate: no timeout is longer than
   the interval, and at the n-th call after the one that started the grid n - 1 intervals have passed.
   */
  lemma WaitingCallersAreThrottled(s: State, interval: nat, times: seq<int>, n: nat)
    requires ValidInterval(interval) && s.interval != interval && WaitsOut(s, interval, times)
    requires n < |times|
    ensures 0 <= Timeout(s, interval, times, n) <= interval
    ensures n <= (times[n] - times[0]) / interval + 1
  {
    assert 0 <= Timeout(s, interval, times, n) <= interval by {
      StaysThrottled(s, interval, times, n);
    }
    if n == 0 {
      DivModUnique(0, interval, 0, 0);
    } else {
      StaysThrottled(s, interval, times, n - 1);
      WaitedIntervals(Run(s, interval, times, n), interval, times[0], n - 1,
                      times[n - 1] + Timeout(s, interval, times, n - 1), times[n]);
    }
  }

  /** Callers that do not wait are put off further with each call: the n-th waits n intervals. */
  lemma {:induction false} ImpatientCallersWait(s: State, interval: nat, now: int, times: seq<int>, n: nat)
    requires ValidInterval(interval) && s.interval != interval && 1 <= n < |times|
    requires forall i :: 0 <= i < |times| ==> times[i] == now
    ensures Run(s, interval, times, n) == State(now, now + (n - 1) * interval, interval)
    ensures Timeout(s, interval, times, n) == n * interval
  {
    if n == 1 {
      assert Run(s, interval, times, 0) == s;
    } else {
      ImpatientCallersWait(s, interval, now, times, n - 1);
    }
    MulMonotonic(0, n, interval);
  }
}
