/** What catching up a timer means, on exact nanosecond values: the grid of expirations, the
    count of those that have passed, and the states a timer goes through. */
module CatchUps {
  import opened Timespecs

  const UINT64: int := 0x1_0000_0000_0000_0000

  /** A timer: its next expiration and interval in nanoseconds, and the expirations that
      nobody has read yet.  An interval of 0 makes it a one-shot timer. */
  datatype Timer = Timer(armed: bool, value: int, interval: int, expirations: int)

  predicate Sound(t: Timer) {
    && t.interval >= 0 && 0 <= t.expirations < UINT64
    && (t.armed ==> t.value > 0) && (!t.armed ==> t.value == 0)
  }

  /** The number of grid points value, value + interval, ... that are not after `now`. */
  function Passed(value: int, interval: int, now: int): (n: nat)
    requires interval > 0
  {
    if now < value then 0 else (now - value) / interval + 1
  }

  /** Catching up fails when the distance to the next grid point, or that grid point's
      seconds, do not fit 64 bits. */
  predicate Overflows(value: int, interval: int, now: int)
    requires interval > 0
  {
    now >= value &&
    var d := Passed(value, interval, now) * interval;
    d > INT64_MAX || value + d >= (INT64_MAX + 1) * NANOS
  }

  function Disarm(t: Timer): Timer {
    t.(armed := false, value := 0)
  }

  function CatchUp(t: Timer, now: int): Timer
    requires t.interval >= 0
  {
    if !t.armed then t
    else if t.interval > 0 then
      if Overflows(t.value, t.interval, now) then Disarm(t)
      else
        var n := Passed(t.value, t.interval, now);
        t.(value := t.value + n * t.interval, expirations := (t.expirations + n) % UINT64)
    else if now >= t.value then Disarm(t).(expirations := (t.expirations + 1) % UINT64)
    else t
  }

  /** The 64-bit counter wraps. */
  predicate Wraps(t: Timer, now: int)
    requires t.interval >= 0
  {
    t.armed && t.expirations + (if t.interval > 0
                                then if Overflows(t.value, t.interval, now) then 0 else Passed(t.value, t.interval, now)
                                else if now >= t.value then 1 else 0) >= UINT64
  }

  /** Catching up either counts something, or leaves the next expiration alone, or disarms
      without counting because of an overflow. */
  lemma CatchUpProgress(t: Timer, now: int)
    requires Sound(t) && !Wraps(t, now)
    ensures var u := CatchUp(t, now);
            || u.expirations > t.expirations
            || u == t
            || (t.armed && !u.armed && t.interval > 0 && Overflows(t.value, t.interval, now))
  {
    if t.armed && t.interval > 0 && now >= t.value {
      LeastGridPointAfter(t.value, t.interval, now);
    }
  }

  /** A timer whose grid point has been reached, or that has something stored, has something
      to report after catching up, except exactly when nothing was stored and it overflows. */
  lemma DueCounts(t: Timer, now: int)
    requires Sound(t) && t.armed && !Wraps(t, now) && (t.expirations > 0 || now >= t.value)
    ensures CatchUp(t, now).expirations == 0
            <==> t.expirations == 0 && t.interval > 0 && Overflows(t.value, t.interval, now)
  {
    if t.interval > 0 && now >= t.value {
      LeastGridPointAfter(t.value, t.interval, now);
    }
  }

  /** An instance: one nanosecond to go, then an interval of 2^63 nanoseconds.  The first
      expiration is reached, and there is nothing to report. */
  lemma DueWithoutCount()
    ensures var t := Timer(true, 1, INT64_MAX + 1, 0);
            Sound(t) && !Wraps(t, 1) && CatchUp(t, 1) == Timer(false, 0, INT64_MAX + 1, 0)
  {
    HugeIntervalLosesExpiration(Timer(true, 1, INT64_MAX + 1, 0), 1);
  }

  // ---- the grid ----

  /** `Passed` counts exactly the indices k >= 0 whose grid point is not after `now`. */
  lemma PassedCounts(value: int, interval: int, now: int, k: nat)
    requires interval > 0
    ensures value + k * interval <= now <==> k < Passed(value, interval, now)
  {
    if now >= value {
      var q := (now - value) / interval;
      Division(now - value, interval);
      if k <= q {
        Scale(k, q, interval);
      } else {
        Scale(q + 1, k, interval);
      }
    } else {
      Scale(0, k, interval);
    }
  }

  lemma Division(a: int, b: int)
    requires b > 0
    ensures (a / b) * b <= a < (a / b + 1) * b
  {
    assert a == (a / b) * b + a % b;
    assert (a / b + 1) * b == (a / b) * b + b;
  }

  lemma Scale(m: int, n: int, c: int)
    requires m <= n && c >= 0
    ensures m * c <= n * c
  {
    assert (n - m) * c >= 0;
    assert (n - m) * c == n * c - m * c;
  }

  /** Catching up moves to the least grid point after `now`. */
  lemma LeastGridPointAfter(value: int, interval: int, now: int)
    requires interval > 0 && now >= value
    ensures var next := value + Passed(value, interval, now) * interval;
            now < next <= now + interval
  {
    Division(now - value, interval);
  }

  /** Each early exit of the catch-up is one way to overflow, and together with the last two
      checks they are the only ones. */
  lemma OverflowCases(value: int, interval: int, now: int)
    requires interval > 0 && now >= value
    ensures now - value > INT64_MAX ==> Overflows(value, interval, now)
    ensures interval > INT64_MAX ==> Overflows(value, interval, now)
    ensures (now - value) / interval >= 0 && Passed(value, interval, now) * interval > 0
    ensures (now - value) / interval >= INT64_MAX ==> Overflows(value, interval, now)
  {
    var n := Passed(value, interval, now);
    LeastGridPointAfter(value, interval, now);
    Scale(1, n, interval);
    Scale(1, interval, n);
  }

  /** An interval beyond 64 bits of nanoseconds (some 292 years) overflows at its very first
      expiration, which is then lost. */
  lemma HugeIntervalLosesExpiration(t: Timer, now: int)
    requires Sound(t) && t.armed && t.interval > INT64_MAX && now >= t.value
    ensures CatchUp(t, now) == Disarm(t)
  {
    OverflowCases(t.value, t.interval, now);
  }

  /** No overflow as long as the lateness and one more interval fit 64 bits of nanoseconds,
      and the seconds of the time that far ahead fit 64 bits. */
  lemma NoOverflow(value: int, interval: int, now: int)
    requires interval > 0 && now - value + interval <= INT64_MAX
    requires now + interval < (INT64_MAX + 1) * NANOS
    ensures !Overflows(value, interval, now)
  {
    if now >= value {
      LeastGridPointAfter(value, interval, now);
    }
  }

  /** Counting from the grid point reached at t1 adds up with counting up to t1. */
  lemma PassedSplits(value: int, interval: int, t1: int, t2: int)
    requires interval > 0 && t1 <= t2
    ensures var n := Passed(value, interval, t1);
            Passed(value, interval, t2) == n + Passed(value + n * interval, interval, t2)
  {
    var n := Passed(value, interval, t1);
    var next := value + n * interval;
    if t1 >= value {
      LeastGridPointAfter(value, interval, t1);
      Division(t1 - value, interval);
      if t2 < next {
        DivisionUnique(t2 - value, interval, n - 1);
      } else {
        var q := (t2 - next) / interval;
        Division(t2 - next, interval);
        assert (n + q) * interval == n * interval + q * interval;
        assert (n + q + 1) * interval == n * interval + (q + 1) * interval;
        DivisionUnique(t2 - value, interval, n + q);
      }
    }
  }

  lemma DivisionUnique(a: int, b: int, q: int)
    requires b > 0 && q * b <= a < (q + 1) * b
    ensures a / b == q
  {
    Division(a, b);
    var p := a / b;
    if p < q {
      Scale(p + 1, q, b);
    } else if p > q {
      Scale(q + 1, p, b);
    }
  }

  /** If the later of two updates does not overflow on its own, neither does the earlier one,
      nor the later one after it. */
  lemma OverflowSplits(value: int, interval: int, t1: int, t2: int)
    requires interval > 0 && t1 <= t2 && !Overflows(value, interval, t2)
    ensures !Overflows(value, interval, t1)
    ensures !Overflows(value + Passed(value, interval, t1) * interval, interval, t2)
  {
    var n := Passed(value, interval, t1);
    var m := Passed(value + n * interval, interval, t2);
    PassedSplits(value, interval, t1, t2);
    assert (n + m) * interval == n * interval + m * interval;
    Scale(0, n, interval);
    Scale(0, m, interval);
  }

  /** One update to t2 that does not overflow is the same as updating at t1 first. */
  lemma CatchUpComposes(t: Timer, t1: int, t2: int)
    requires Sound(t) && t1 <= t2
    requires t.armed && t.interval > 0 ==> !Overflows(t.value, t.interval, t2)
    ensures CatchUp(CatchUp(t, t1), t2) == CatchUp(t, t2)
  {
    if t.armed && t.interval > 0 {
      var n := Passed(t.value, t.interval, t1);
      var m := Passed(t.value + n * t.interval, t.interval, t2);
      PassedSplits(t.value, t.interval, t1, t2);
      OverflowSplits(t.value, t.interval, t1, t2);
      assert (n + m) * t.interval == n * t.interval + m * t.interval;
      ModAdd(t.expirations + n, m);
    }
  }

  lemma ModAdd(a: int, b: int)
    ensures (a % UINT64 + b) % UINT64 == (a + b) % UINT64
  {
    var q := a / UINT64;
    assert a == q * UINT64 + a % UINT64;
    assert a + b == q * UINT64 + (a % UINT64 + b);
  }

  lemma CatchUpSound(t: Timer, now: int)
    requires Sound(t)
    ensures Sound(CatchUp(t, now))
    ensures CatchUp(t, now).armed ==> now < CatchUp(t, now).value
  {
    if t.armed && t.interval > 0 && now >= t.value {
      LeastGridPointAfter(t.value, t.interval, now);
      Scale(0, Passed(t.value, t.interval, now), t.interval);
    }
  }

  // ---- conservation over runs ----

  /** One call on the timer at a time `now`; a read may or may not find the kernel's timer
      event delivered. */
  datatype Call = Read(now: int) | GetTime(now: int)

  /** A read of an armed timer hands out the expirations and starts counting afresh; a
      disarmed timer has nothing to read, whatever it has stored. */
  function Apply(t: Timer, c: Call): (r: (Timer, int))
    requires t.interval >= 0
    ensures r.0.interval == t.interval
  {
    var u := CatchUp(t, c.now);
    if !t.armed then (t, 0)
    else if c.Read? then (u.(expirations := 0), u.expirations)
    else (u, 0)
  }

  function Total(t: Timer, calls: seq<Call>): (r: (Timer, int))
    requires t.interval >= 0
    ensures r.0.interval == t.interval
    decreases |calls|
  {
    if calls == [] then (t, 0)
    else
      var (u, n) := Apply(t, calls[0]);
      var (v, m) := Total(u, calls[1..]);
      (v, n + m)
  }

  ghost predicate NonDecreasing(calls: seq<Call>) {
    forall i, j :: 0 <= i < j < |calls| ==> calls[i].now <= calls[j].now
  }

  /** The first call of a run, and what is left to account for after it. */
  lemma FirstCall(t: Timer, c: Call, last: int) returns (wraps: nat)
    requires Sound(t) && t.armed && t.interval > 0 && c.now <= last && !Overflows(t.value, t.interval, last)
    ensures var (u, got) := Apply(t, c);
            && Sound(u) && u.armed && got >= 0 && !Overflows(u.value, t.interval, last)
            && u.value + Passed(u.value, t.interval, last) * t.interval
               == t.value + Passed(t.value, t.interval, last) * t.interval
            && got + u.expirations + UINT64 * wraps + Passed(u.value, t.interval, last)
               == t.expirations + Passed(t.value, t.interval, last)
  {
    var n := Passed(t.value, t.interval, c.now);
    OverflowSplits(t.value, t.interval, c.now, last);
    CatchUpSound(t, c.now);
    PassedSplits(t.value, t.interval, c.now, last);
    var m := Passed(t.value + n * t.interval, t.interval, last);
    Distributes(t.value, n, m, t.interval);
    wraps := (t.expirations + n) / UINT64;
    DivMod(t.expirations + n);
  }

  lemma Distributes(value: int, n: int, m: int, interval: int)
    ensures value + (n + m) * interval == value + n * interval + m * interval
  {
  }

  lemma DivMod(a: int)
    ensures a == a % UINT64 + UINT64 * (a / UINT64)
  {
  }

  /** Up to `last` catching up neither overflows nor wraps the counter. */
  ghost predicate Fits(t: Timer, last: int) {
    && Sound(t)
    && (t.armed && t.interval > 0 ==>
          !Overflows(t.value, t.interval, last) && t.expirations + Passed(t.value, t.interval, last) < UINT64)
    && (t.armed && t.interval == 0 ==> t.expirations + 1 < UINT64)
  }

  lemma FitsSooner(t: Timer, sooner: int, last: int)
    requires Fits(t, last) && sooner <= last
    ensures Fits(t, sooner)
  {
    if t.armed && t.interval > 0 {
      OverflowSplits(t.value, t.interval, sooner, last);
      PassedSplits(t.value, t.interval, sooner, last);
    }
  }

  /** A timer that fits fits after any call, and the call neither overflows nor wraps. */
  lemma FitsKept(t: Timer, c: Call, last: int)
    requires Fits(t, last) && c.now <= last
    ensures Fits(Apply(t, c).0, last) && !Wraps(t, c.now)
    ensures t.armed && t.interval > 0 ==> !Overflows(t.value, t.interval, c.now)
  {
    CatchUpSound(t, c.now);
    if t.armed && t.interval > 0 {
      OverflowSplits(t.value, t.interval, c.now, last);
      PassedSplits(t.value, t.interval, c.now, last);
      var wraps := FirstCall(t, c, last);
    }
  }

  /** A bound on intervals; the count of an armed timer stays below its next expiration, which
      each grid point takes further. */
  ghost predicate Modest(t: Timer, interval: int) {
    Sound(t) && (t.armed ==> t.interval <= interval && t.expirations < t.value)
  }

  /** While times and intervals together stay within 64 bits of nanoseconds, nothing overflows
      or wraps. */
  lemma ModestKept(t: Timer, now: int, interval: int)
    requires Modest(t, interval) && now + interval <= INT64_MAX && interval >= 0
    ensures Modest(CatchUp(t, now), interval) && !Wraps(t, now)
    ensures t.armed && t.interval > 0 ==> !Overflows(t.value, t.interval, now)
  {
    CatchUpSound(t, now);
    if t.armed && t.interval > 0 {
      NoOverflow(t.value, t.interval, now);
      if now >= t.value {
        LeastGridPointAfter(t.value, t.interval, now);
        Scale(1, t.interval, Passed(t.value, t.interval, now));
      }
    }
  }

  /** Conservation: over any run of reads and gettimes at non-decreasing times, what has been
      read, what is stored and what the 64-bit counter wrapped away account for every grid
      point passed, no more and no less. */
  lemma {:induction false} Conservation(t: Timer, calls: seq<Call>) returns (wraps: nat)
    requires Sound(t) && t.armed && t.interval > 0 && calls != [] && NonDecreasing(calls)
    requires !Overflows(t.value, t.interval, calls[|calls| - 1].now)
    ensures var (u, read) := Total(t, calls);
            var p := Passed(t.value, t.interval, calls[|calls| - 1].now);
            && read >= 0 && Sound(u) && u.armed && u.value == t.value + p * t.interval
            && read + u.expirations + UINT64 * wraps == t.expirations + p
    decreases |calls|
  {
    var last := calls[|calls| - 1].now;
    wraps := FirstCall(t, calls[0], last);
    var (u, got) := Apply(t, calls[0]);
    if |calls| == 1 {
      assert calls[1..] == [];
      CatchUpSound(t, last);
      assert Passed(u.value, t.interval, last) == 0;
    } else {
      var rest := calls[1..];
      assert rest[|rest| - 1] == calls[|calls| - 1];
      var more := Conservation(u, rest);
      wraps := wraps + more;
    }
  }

  /** As long as fewer than 2^64 grid points have passed, nothing wraps and the account is
      exact. */
  lemma ExactConservation(t: Timer, calls: seq<Call>)
    requires Sound(t) && t.armed && t.interval > 0 && t.expirations == 0
    requires calls != [] && NonDecreasing(calls)
    requires !Overflows(t.value, t.interval, calls[|calls| - 1].now)
    requires Passed(t.value, t.interval, calls[|calls| - 1].now) < UINT64
    ensures var (u, read) := Total(t, calls);
            read + u.expirations == Passed(t.value, t.interval, calls[|calls| - 1].now)
  {
    var wraps := Conservation(t, calls);
  }

  /** What a gettime at `now` reports, in nanoseconds until the next expiration: the plain
      difference before the first expiry, then what is left of the current interval; it is
      always positive. */
  lemma Remaining(t: Timer, now: int)
    requires Sound(t) && t.armed && t.interval > 0 && !Overflows(t.value, t.interval, now)
    ensures var left := CatchUp(t, now).value - now;
            && left > 0
            && (now < t.value ==> left == t.value - now)
            && (now >= t.value ==> left == t.interval - (now - t.value) % t.interval)
  {
    CatchUpSound(t, now);
    if now >= t.value {
      var a := now - t.value;
      assert a == (a / t.interval) * t.interval + a % t.interval;
      assert (a / t.interval + 1) * t.interval == (a / t.interval) * t.interval + t.interval;
    }
  }

  /** What gettime is to report of a timer first due at `value` and then every `interval`. */
  function Distance(value: int, interval: int, now: int): int
    requires interval > 0
  {
    if now < value then value - now else interval - (now - value) % interval
  }

  /** A timer that has been caught up with before reports the same. */
  lemma RemainingLater(value: int, interval: int, n: int, t1: int, t2: int)
    requires value > 0 && interval > 0 && 0 <= n < UINT64 && t1 <= t2 && !Overflows(value, interval, t2)
    ensures var t := Timer(true, value + Passed(value, interval, t1) * interval, interval, n);
            && Sound(t) && !Overflows(t.value, interval, t2)
            && CatchUp(t, t2).value - t2 == Distance(value, interval, t2)
  {
    var k := Passed(value, interval, t1);
    Scale(0, k, interval);
    OverflowSplits(value, interval, t1, t2);
    PassedSplits(value, interval, t1, t2);
    Distributes(value, k, Passed(value + k * interval, interval, t2), interval);
    Remaining(Timer(true, value, interval, 0), t2);
  }

  /** The index of the first call at or after a time. */
  function FirstAt(calls: seq<Call>, time: int): (n: nat)
    ensures n <= |calls|
    decreases |calls|
  {
    if calls == [] || calls[0].now >= time then 0 else 1 + FirstAt(calls[1..], time)
  }

  lemma {:induction false} DisarmedYieldsNothing(t: Timer, calls: seq<Call>)
    requires Sound(t) && !t.armed
    ensures Total(t, calls) == (t, 0)
    decreases |calls|
  {
    if calls != [] {
      DisarmedYieldsNothing(t, calls[1..]);
    }
  }

  /** A one-shot timer delivers its expiration exactly when the first call at or after the
      expiry is a read.  If that call is a gettime, the expiration is lost: gettime disarms
      the timer, and the reads after it find nothing. */
  lemma {:induction false} OneShotDelivered(t: Timer, calls: seq<Call>)
    requires Sound(t) && t.armed && t.interval == 0 && t.expirations == 0
    ensures var n := FirstAt(calls, t.value);
            Total(t, calls).1 == if n < |calls| && calls[n].Read? then 1 else 0
    decreases |calls|
  {
    if calls != [] {
      var (u, got) := Apply(t, calls[0]);
      if calls[0].now >= t.value {
        DisarmedYieldsNothing(u, calls[1..]);
      } else {
        assert u == t;
        OneShotDelivered(t, calls[1..]);
      }
    }
  }
}
