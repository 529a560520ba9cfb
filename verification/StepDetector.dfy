/** The watch on steps of the realtime clock: a count of the timers that need it, and detector
    threads told apart by the generation in which they were started. */
module StepDetectors {
  import opened Sums

  const UINT64: int := 0x1_0000_0000_0000_0000

  /** A timer descriptor.  `pending` is the change of the count that a settime in flight has
      made to the timer but not yet reported; the descriptor's mutex is held meanwhile. */
  datatype Timer = Timer(realtime: bool, abstime: bool, open: bool, pending: int)

  /** A detector thread, with the generation it was started in. */
  datatype Detector = Detector(generation: int, running: bool)

  /** `epoch` and `epochs` are the current generation and those of the detectors before they
      were cut to 64 bits. */
  datatype State = State(count: int, generation: int, timers: seq<Timer>, detectors: seq<Detector>,
                         epoch: int, epochs: seq<int>)

  /** `clockid == CLOCK_REALTIME && is_abstime`, as a number. */
  function CanJump(t: Timer): int { if t.open && t.realtime && t.abstime then 1 else 0 }

  /** What the count already reflects of a timer. */
  function Counted(t: Timer): int { CanJump(t) - t.pending }

  ghost predicate Valid(s: State) { ValidUpTo(s, 0) }

  /** The invariant, with the count still short of `change`. */
  ghost predicate ValidUpTo(s: State, change: int) {
    && 0 <= s.count && s.count + change == Sum(s.timers, Counted)
    && (forall i :: 0 <= i < |s.timers| ==>
          0 <= Counted(s.timers[i]) <= 1 && (!s.timers[i].open ==> s.timers[i].pending == 0))
    && s.epoch >= 0 && s.generation == s.epoch % UINT64
    && |s.epochs| == |s.detectors|
    && (forall d :: 0 <= d < |s.detectors| ==>
          && 0 <= s.epochs[d] && s.detectors[d].generation == s.epochs[d] % UINT64
          && (if s.count == 0 then s.epochs[d] < s.epoch else s.epochs[d] <= s.epoch))
    && (forall d, e :: 0 <= d < e < |s.detectors| ==> s.epochs[d] < s.epochs[e])
  }

  // ---- what the invariant means ----

  /** When no settime is in flight, the count is the number of open realtime timers with an
      absolute time. */
  lemma CountIsExact(s: State)
    requires Valid(s) && forall i :: 0 <= i < |s.timers| ==> s.timers[i].pending == 0
    ensures s.count == |set i | 0 <= i < |s.timers| && s.timers[i].open && s.timers[i].realtime && s.timers[i].abstime|
  {
    SumCounts(s.timers, Counted, set i | 0 <= i < |s.timers| && s.timers[i].open && s.timers[i].realtime && s.timers[i].abstime);
  }

  /** A timer that is counted can be taken off the count: the assertion before the
      subtraction holds. */
  lemma SubtractionIsSafe(s: State, i: nat)
    requires Valid(s) && i < |s.timers|
    ensures s.count >= Counted(s.timers[i])
  {
    SumTerm(s.timers, i, Counted);
  }

  /** The count fits its 64 bits as long as there are fewer timers than that. */
  lemma CountFits(s: State)
    requires Valid(s)
    ensures s.count <= |s.timers|
  {
    SumBound(s.timers, Counted, 1);
  }

  /** Generations are pairwise distinct, until the 64-bit number has gone round once. */
  lemma GenerationsDistinct(s: State, d: nat, e: nat)
    requires Valid(s) && d < e < |s.detectors|
    ensures s.detectors[d].generation == s.detectors[e].generation ==> s.epoch >= UINT64
  {
  }

  /** At most one detector has the current generation, and none when nothing is counted. */
  lemma AtMostOneCurrent(s: State, d: nat, e: nat)
    requires Valid(s) && s.epoch < UINT64 && d < |s.detectors| && e < |s.detectors|
    requires s.detectors[d].generation == s.generation && s.detectors[e].generation == s.generation
    ensures s.count > 0 && d == e && d == |s.detectors| - 1
  {
    assert s.epochs[d] == s.epoch && s.epochs[e] == s.epoch;
    assert s.epochs[|s.detectors| - 1] <= s.epoch;
  }

  // ---- the monitor, changed in place ----

  class Monitor {
    var nrFds: int
    var generation: int
    var timers: seq<Timer>
    var detectors: seq<Detector>
    ghost var epoch: int
    ghost var epochs: seq<int>

    ghost function View(): State
      reads this
    {
      State(nrFds, generation, timers, detectors, epoch, epochs)
    }

    constructor ()
      ensures View() == State(0, 0, [], [], 0, []) && Valid(View())
    {
      nrFds, generation, timers, detectors, epoch, epochs := 0, 0, [], [], 0, [];
    }

    /** `timerfd_create`: the descriptor's table entry is not part of this module. */
    method Create(realtime: bool) returns (t: nat)
      requires Valid(View())
      modifies `timers
      ensures Valid(View()) && t == |old(timers)|
      ensures timers == old(timers) + [Timer(realtime, false, true, 0)]
    {
      t := |timers|;
      SumAppend(timers, Timer(realtime, false, true, 0), Counted);
      timers := timers + [Timer(realtime, false, true, 0)];
    }

    /** The first part of `timerfd_settime_impl`, under the descriptor's mutex: the timer is
        set, unless that fails. */
    method SetTime(t: nat, ok: bool, abstime: bool)
      requires Valid(View()) && t < |timers| && timers[t].open && timers[t].pending == 0
      modifies `timers
      ensures Valid(View()) && |timers| == |old(timers)|
      ensures !ok ==> timers == old(timers)
      ensures ok ==>
                && (forall i :: 0 <= i < |timers| && i != t ==> timers[i] == old(timers[i]))
                && timers[t].abstime == abstime && timers[t].open
                && timers[t].realtime == old(timers[t].realtime)
                && Counted(timers[t]) == old(CanJump(timers[t])) && timers[t] == old(timers[t]).(abstime := abstime, pending := timers[t].pending)
    {
      if !ok {
        return;
      }
      var oldCanJump := CanJump(timers[t]);
      var set_ := timers[t].(abstime := abstime);
      set_ := set_.(pending := CanJump(set_) - oldCanJump);
      SumUpdate(timers, t, set_, Counted);
      timers := timers[t := set_];
    }

    /** The second part: the change is reported. */
    method Report(t: nat, startOk: bool)
      requires Valid(View()) && t < |timers| && timers[t].open
      modifies `nrFds, `generation, `detectors, `timers, `epoch, `epochs
      ensures Valid(View()) && timers == old(timers)[t := old(timers[t]).(pending := 0)]
      ensures nrFds == old(nrFds) + old(timers[t].pending)
      ensures detectors == if nrFds > 0 && old(nrFds) == 0 && startOk
                           then old(detectors) + [Detector(old(generation), true)] else old(detectors)
      ensures generation == if nrFds == 0 && old(nrFds) > 0 then (old(generation) + 1) % UINT64 else old(generation)
    {
      SubtractionIsSafe(View(), t);
      var change := timers[t].pending;
      var done := timers[t].(pending := 0);
      SumUpdate(timers, t, done, Counted);
      timers := timers[t := done];
      UpdateMonitoring(change, startOk);
    }

    /** A settime as a whole: one that succeeds counts a timer on the realtime clock in when its time
        becomes absolute, and out when it does not stay so; no other timer counts. */
    method SetAndReport(t: nat, ok: bool, abstime: bool, startOk: bool)
      requires Valid(View()) && t < |timers| && timers[t].open && timers[t].pending == 0
      modifies this
      ensures Valid(View()) && |timers| == |old(timers)| && timers[t].pending == 0
      ensures timers == old(timers)[t := if ok then old(timers[t]).(abstime := abstime) else old(timers[t])]
      ensures nrFds == old(nrFds) +
                if !ok || !old(timers[t].realtime) || old(timers[t].abstime) == abstime then 0
                else if abstime then 1
                else -1
      ensures detectors == if nrFds > 0 && old(nrFds) == 0 && startOk
                           then old(detectors) + [Detector(old(generation), true)] else old(detectors)
      ensures generation == if nrFds == 0 && old(nrFds) > 0 then (old(generation) + 1) % UINT64 else old(generation)
    {
      SetTime(t, ok, abstime);
      if ok {
        Report(t, startOk);
      }
    }

    /** `timerfd_close`, when the last reference is gone: nobody has a settime in flight. */
    method Close(t: nat, startOk: bool)
      requires Valid(View()) && t < |timers| && timers[t].open && timers[t].pending == 0
      modifies `nrFds, `generation, `detectors, `timers, `epoch, `epochs
      ensures Valid(View()) && timers == old(timers)[t := old(timers[t]).(open := false)]
      ensures nrFds == old(nrFds) - if old(timers[t].realtime && timers[t].abstime) then 1 else 0
      ensures detectors == old(detectors)
      ensures generation == if nrFds == 0 && old(nrFds) > 0 then (old(generation) + 1) % UINT64 else old(generation)
    {
      SubtractionIsSafe(View(), t);
      var oldCanJump := CanJump(timers[t]);
      var closed := timers[t].(open := false);
      SumUpdate(timers, t, closed, Counted);
      timers := timers[t := closed];
      UpdateMonitoring(-oldCanJump, startOk);
    }

    /** `epoll_shim_ctx_update_realtime_change_monitoring`, under the detector's mutex;
        starting a detector thread may fail. */
    method UpdateMonitoring(change: int, startOk: bool)
      requires ValidUpTo(View(), change)
      modifies `nrFds, `generation, `detectors, `epoch, `epochs
      ensures Valid(View()) && nrFds == old(nrFds) + change
      ensures detectors == if change > 0 && old(nrFds) == 0 && startOk
                           then old(detectors) + [Detector(old(generation), true)] else old(detectors)
      ensures epoch == if change < 0 && nrFds == 0 then old(epoch) + 1 else old(epoch)
      ensures generation == if change < 0 && nrFds == 0 then (old(generation) + 1) % UINT64 else old(generation)
    {
      if change == 0 {
        return;
      }
      SumNonNegative(timers, Counted);
      var oldNrFds := nrFds;
      if change < 0 {
        assert oldNrFds >= -change;
        nrFds := nrFds - -change;
        if nrFds == 0 {
          generation := (generation + 1) % UINT64;
          epoch := epoch + 1;
        }
      } else {
        nrFds := nrFds + change;
        if oldNrFds == 0 && startOk {
          detectors := detectors + [Detector(generation, true)];
          epochs := epochs + [epoch];
        }
      }
    }

    /** One pass of a detector thread's loop: it ends when the boot time cannot be read, or
        when its generation is over. */
    method DetectorPass(d: nat, offsetOk: bool)
      requires Valid(View()) && d < |detectors| && detectors[d].running
      modifies `detectors
      ensures Valid(View())
      ensures detectors == old(detectors)[d := old(detectors[d]).(running := offsetOk && old(detectors[d].generation) == generation)]
    {
      if !offsetOk || generation != detectors[d].generation {
        detectors := detectors[d := detectors[d].(running := false)];
      }
    }
  }
}
