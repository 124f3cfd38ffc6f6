/** The deadlines of RepeatingTimer: microsecond arithmetic on fixed-width integers. */
module RepeatingTimer {
  import opened Options

  const TWO_63: int := 0x8000_0000_0000_0000
  const TWO_64: int := 0x1_0000_0000_0000_0000

  /** Conversion to uint64_t, and from uint64_t to int64_t. */
  function ToUint64(x: int): int {
    x % TWO_64
  }

  function ToInt64(x: int): int {
    var u := ToUint64(x);
    if u < TWO_63 then u else u - TWO_64
  }

  /** The remainder of C++: it has the sign of the dividend. */
  function TruncatedRemainder(a: int, b: int): int
    requires 0 < b
  {
    if a >= 0 then a % b else -((-a) % b)
  }

  /** The delay RunTask posts with, from the advanced expected time and the clock. */
  function RemainingTime(expected: int, now: int, period: int): int
    requires 0 < period
  {
    var remaining := ToInt64(expected - now);
    if remaining < 0 then TruncatedRemainder(TruncatedRemainder(remaining, period) + period, period) else remaining
  }

  lemma Narrow(x: int)
    requires -TWO_63 <= x < TWO_63
    ensures ToInt64(x) == x
  {
  }

  /** The conversions keep a number up to multiples of 2^64, in the range of their type. */
  lemma {:induction false} Converts(x: int)
    ensures 0 <= ToUint64(x) < TWO_64 && (x - ToUint64(x)) % TWO_64 == 0
    ensures -TWO_63 <= ToInt64(x) < TWO_63 && (x - ToInt64(x)) % TWO_64 == 0
  {
  }

  lemma {:induction false} Multiple(a: int, p: int, q: int)
    requires 0 < p && a == q * p
    ensures a % p == 0
  {
    assert a == q * p + 0;
    QuotientUnique(a, p, q, 0);
  }

  lemma {:induction false} Grows(d: nat, p: int)
    requires 0 < p && 0 < d
    ensures p <= d * p
  {
    if d > 1 {
      Grows(d - 1, p);
      assert d * p == (d - 1) * p + p;
    }
  }

  lemma {:induction false} AtLeastOne(d: int, p: int)
    requires 0 < p
    ensures 0 < d ==> p <= d * p
    ensures d < 0 ==> d * p <= -p
  {
    if 0 < d {
      Grows(d, p);
    } else if d < 0 {
      Grows(-d, p);
      assert d * p == -((-d) * p);
    }
  }

  lemma {:induction false} QuotientUnique(a: int, p: int, q: int, r: int)
    requires 0 < p && a == q * p + r && 0 <= r < p
    ensures a % p == r
  {
    var d := a / p - q;
    calc {
      d * p;
      (a / p) * p - q * p;
      a - a % p - q * p;
      r - a % p;
    }
    AtLeastOne(d, p);
  }

  /**
   The next deadline lies on the grid of the expected time, never in the past; a
   run that is on time keeps the expected time itself, a late one skips to the
   first grid point that is left.
   */
  lemma {:induction false} NextDeadline(expected: int, now: int, period: int)
    requires 0 < period && -TWO_63 <= expected - now < TWO_63
    ensures var delay := RemainingTime(expected, now, period);
            && 0 <= delay
            && (now + delay - expected) % period == 0
            && (now <= expected ==> now + delay == expected)
            && (expected < now ==> delay < period && expected < now + delay)
  {
    Narrow(expected - now);
    if expected < now {
      var late := now - expected;
      var q, m := late / period, late % period;
      assert late == q * period + m;
      var delay := RemainingTime(expected, now, period);
      assert TruncatedRemainder(-late, period) == -m;
      if m == 0 {
        assert delay == 0 by { QuotientUnique(period, period, 1, 0); }
        Multiple(now + delay - expected, period, q);
      } else {
        assert delay == period - m by { QuotientUnique(period - m, period, 0, period - m); }
        assert late + (period - m) == (q + 1) * period;
        Multiple(now + delay - expected, period, q + 1);
      }
    } else {
      Multiple(0, period, 0);
    }
  }

  class RepeatingTimer {
    var expectedTimeNextTask: int  // uint64_t, microseconds
    var period: int                // int64_t, microseconds
    var scheduled: bool            // message_loop_thread_ is not null

    constructor ()
      ensures expectedTimeNextTask == 0 && !scheduled
    {
      expectedTimeNextTask, period, scheduled := 0, 0, false;
    }

    /**
     `start` and `posted` are the clock before and after the wait for the previous
     task to be cancelled; `accepted` says whether the loop takes the first post.
     The delay may be negative, which the loop treats as none.
     */
    method SchedulePeriodic(hasThread: bool, newPeriod: int, start: int, posted: int, accepted: bool)
      returns (ok: bool, delay: Option<int>)
      modifies this
      ensures ok <==> 1 <= newPeriod && hasThread && accepted
      ensures newPeriod < 1 || !hasThread ==> unchanged(this) && delay == None
      ensures 1 <= newPeriod && hasThread && !accepted ==> expectedTimeNextTask == 0 && period == 0 && !scheduled
      ensures 1 <= newPeriod && hasThread ==> delay == Some(ToInt64(ToUint64(start + newPeriod) - posted))
      ensures ok ==> expectedTimeNextTask == ToUint64(start + newPeriod) && period == newPeriod && scheduled
    {
      ok, delay := false, None;
      if newPeriod < 1 { return; }
      var next := ToUint64(start + newPeriod);
      if !hasThread { return; }
      CancelClosure();
      expectedTimeNextTask := next;
      scheduled := true;
      period := newPeriod;
      delay := Some(ToInt64(next - posted));
      if !accepted {
        expectedTimeNextTask, scheduled, period := 0, false, 0;
        return;
      }
      ok := true;
    }

    method CancelClosure()
      modifies this
      ensures !scheduled && period == 0 && expectedTimeNextTask == 0
    {
      scheduled := false;
      period := 0;
      expectedTimeNextTask := 0;
    }

    /** The task runs and posts itself again; None when the timer is no longer on a running thread. */
    method RunTask(running: bool, now: int) returns (delay: Option<int>)
      requires scheduled ==> 0 < period
      modifies this
      ensures period == old(period) && scheduled == old(scheduled)
      ensures delay.Some? <==> scheduled && running
      ensures delay.Some? ==>
                && expectedTimeNextTask == ToUint64(old(expectedTimeNextTask) + period)
                && delay.value == RemainingTime(expectedTimeNextTask, now, period)
      ensures delay.None? ==> expectedTimeNextTask == old(expectedTimeNextTask)
    {
      if !scheduled || !running { return None; }
      expectedTimeNextTask := ToUint64(expectedTimeNextTask + period);
      var remaining := ToInt64(expectedTimeNextTask - now);
      if remaining < 0 {
        remaining := TruncatedRemainder(TruncatedRemainder(remaining, period) + period, period);
      }
      return Some(remaining);
    }
  }

  // ---------- a whole schedule ----------

  /** What RunTask leaves in the expected time after its k-th run, counting from zero. */
  function Expected(start: int, period: int, k: nat): int
    decreases k
  {
    ToUint64((if k == 0 then ToUint64(start + period) else Expected(start, period, k - 1)) + period)
  }

  /** When the k-th run falls due: the clock at which it was posted plus its delay. */
  function Due(start: int, period: int, posted: int, runs: seq<int>, k: nat): int
    requires 0 < period && k <= |runs|
  {
    if k == 0 then
      var delay := ToInt64(ToUint64(start + period) - posted);
      if delay < 0 then posted else posted + delay
    else
      runs[k - 1] + RemainingTime(Expected(start, period, k - 1), runs[k - 1], period)
  }

  /** Clock readings of a schedule: no task runs early, and the clock stays in range. */
  ghost predicate Faithful(start: int, period: int, posted: int, runs: seq<int>) {
    && 0 < period && 0 <= start <= posted && posted + 2 * period < TWO_63
    && (forall k :: 0 <= k < |runs| ==> Due(start, period, posted, runs, k) <= runs[k] < TWO_63 - 2 * period)
  }

  /** The n-th point of the schedule's grid. */
  ghost function Tick(start: int, period: int, n: nat): int {
    if n == 0 then start else Tick(start, period, n - 1) + period
  }

  lemma {:induction false} TickIs(start: int, period: int, n: nat)
    ensures Tick(start, period, n) == start + n * period
  {
    if n > 0 {
      TickIs(start, period, n - 1);
      assert n * period == (n - 1) * period + period;
    }
  }

  lemma {:induction false} NthDeadline(start: int, period: int, posted: int, runs: seq<int>, k: nat)
    requires Faithful(start, period, posted, runs) && k <= |runs|
    ensures var due, tick := Due(start, period, posted, runs, k), Tick(start, period, k + 1);
            && tick <= due
            && (0 < k ==> Expected(start, period, k - 1) == tick)
            && (0 < k ==> (due - tick) % period == 0)
            && (0 < k ==> runs[k - 1] <= due <= runs[k - 1] + period)
            && (0 < k && runs[k - 1] <= tick ==> due == tick)
  {
    if k == 0 {
      FirstDeadline(start, period, posted, runs);
    } else {
      var now, tick := runs[k - 1], Tick(start, period, k + 1);
      NthDeadline(start, period, posted, runs, k - 1);
      assert tick == Tick(start, period, k) + period;
      TickPositive(start, period, k + 1);
      ExpectedIs(start, period, k - 1);
      DeadlineStep(tick, now, period, Due(start, period, posted, runs, k));
    }
  }

  lemma {:induction false} DeadlineStep(tick: int, now: int, period: int, due: int)
    requires 0 < period && tick - period <= now && 0 <= tick && 0 <= now < TWO_63 - 2 * period
    requires due == now + RemainingTime(tick, now, period)
    ensures tick <= due && (due - tick) % period == 0 && now <= due <= now + period
    ensures now <= tick ==> due == tick
  {
    NextDeadline(tick, now, period);
  }

  lemma {:induction false} FirstDeadline(start: int, period: int, posted: int, runs: seq<int>)
    requires Faithful(start, period, posted, runs)
    ensures Tick(start, period, 1) <= Due(start, period, posted, runs, 0)
  {
    assert Tick(start, period, 1) == Tick(start, period, 0) + period;
    Narrow(start + period - posted);
  }

  /** Within range, the expected time advances along the grid. */
  lemma {:induction false} ExpectedIs(start: int, period: int, k: nat)
    requires 0 <= start && 0 < period && Tick(start, period, k + 2) < TWO_64
    ensures Expected(start, period, k) == Tick(start, period, k + 2)
  {
    TickPositive(start, period, k + 1);
    assert Tick(start, period, k + 2) == Tick(start, period, k + 1) + period;
    if k == 0 {
      assert Tick(start, period, 1) == Tick(start, period, 0) + period;
    } else {
      ExpectedIs(start, period, k - 1);
    }
  }

  lemma {:induction false} TickPositive(start: int, period: int, n: nat)
    requires 0 <= start && 0 < period
    ensures start <= Tick(start, period, n)
  {
    if n > 0 { TickPositive(start, period, n - 1); }
  }

  lemma {:induction false} OnGrid(start: int, period: int, due: int, n: nat)
    requires 0 < period && (due - (start + n * period)) % period == 0
    ensures (due - start) % period == 0
  {
    var q := (due - (start + n * period)) / period;
    assert due - (start + n * period) == q * period;
    assert (q + n) * period == q * period + n * period;
    Multiple(due - start, period, q + n);
  }

  /**
   However late tasks run: every deadline RunTask computes is a whole number of
   periods after the start, the posted delay stays within one period, and a run
   that is not more than a period late keeps the schedule without drift.
   */
  lemma {:induction false} StaysOnGrid(start: int, period: int, posted: int, runs: seq<int>, k: nat)
    requires Faithful(start, period, posted, runs) && 0 < k <= |runs|
    ensures var due := Due(start, period, posted, runs, k);
            && (due - start) % period == 0
            && 0 <= due - runs[k - 1] <= period
            && (runs[k - 1] <= start + (k + 1) * period ==> due == start + (k + 1) * period)
  {
    NthDeadline(start, period, posted, runs, k);
    TickIs(start, period, k + 1);
    OnGrid(start, period, Due(start, period, posted, runs, k), k + 1);
  }

  /** The timer never over-fires: by any time, at most one run per elapsed period. */
  lemma {:induction false} NeverOverfires(start: int, period: int, posted: int, runs: seq<int>, k: nat)
    requires Faithful(start, period, posted, runs) && k < |runs|
    ensures start + (k + 1) * period <= runs[k]
    ensures k + 1 <= (runs[k] - start) / period
  {
    NthDeadline(start, period, posted, runs, k);
    TickIs(start, period, k + 1);
    WholePeriods(runs[k] - start, period, k + 1);
  }

  lemma {:induction false} WholePeriods(elapsed: int, period: int, n: nat)
    requires 0 < period && n * period <= elapsed
    ensures n <= elapsed / period
  {
    var d := n - elapsed / period;
    calc {
      d * period;
      n * period - (elapsed / period) * period;
      n * period - (elapsed - elapsed % period);
    }
    AtLeastOne(d, period);
  }
}
