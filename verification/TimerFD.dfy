/** The timer descriptor: settime, gettime and read on a timer whose wake-ups come from a
    one-shot event in a kqueue. */
module TimerFDs {
  import opened Collections
  import opened Timespecs
  import opened CatchUps

  datatype Clock = Monotonic | Realtime
  datatype TimerType = Unspecified | Relative | Absolute
  datatype ItimerSpec = ItimerSpec(value: Timespec, interval: Timespec)

  datatype Errno = Ok | EINVAL | EAGAIN | ECANCELED | SystemError

  /** What a kevent call that deletes the old event and adds the new one comes to. */
  datatype Kevent = Done | Failed | AddFailed

  /** A read yields a count or an error, or stops at a failing assertion. */
  datatype ReadResult = Expirations(n: int) | Error(ec: Errno) | Aborts

  /** What settime is called with, and what the system answers: the times that reading the clock
      of the old and of the new setting gives, if anything, the monotonic time at which the event
      is registered, what comes of that, and the boot time. */
  datatype SetCall = SetCall(absolute: bool, cancelOnSet: bool, spec: ItimerSpec, wantOld: bool,
                             oldNow: Option<Timespec>, newNow: Option<Timespec>, mono: int, kev: Kevent, offset: Option<Timespec>)
  {
    /** The times read are valid, as those of the system are. */
    ghost predicate TimesProper() {
      (oldNow.Some? ==> IsValid(oldNow.value)) && (newNow.Some? ==> IsValid(newNow.value))
    }

    ghost predicate Proper() { TimesProper() && IsValid(spec.value) && IsValid(spec.interval) }

    function NewType(): TimerType { if absolute then Absolute else Relative }
  }

  /** What settime finds of the old setting. */
  datatype Was = Was(timer: Timer, timerType: TimerType, isAbstime: bool, interval: Timespec, wrapped: bool)

  const TEN_YEARS: int := 315360000

  /** The relative timeout for a deadline: the distance in microseconds, rounded up, or 0
      for a deadline in the past. */
  function Micros(target: int, now: int): (m: int)
    ensures m >= 0
    ensures target >= now ==> target <= now + m * 1000 < target + 1000
    ensures target < now ==> m == 0
  {
    if target <= now then 0 else (target - now + 999) / 1000
  }

  /** Rounding seconds and nanoseconds up to microseconds rounds the exact distance up. */
  lemma MicrosOf(sec: int, nsec: int, target: int, now: int)
    requires sec >= 0 && 0 <= nsec < NANOS
    requires sec * NANOS + nsec == if target <= now then 0 else target - now
    ensures sec * 1_000_000 + nsec / 1000 + (if nsec % 1000 != 0 then 1 else 0) == Micros(target, now)
  {
    var q, r := nsec / 1000, nsec % 1000;
    assert nsec == 1000 * q + r;
    assert target > now ==> target - now == 1000 * (sec * 1_000_000 + q) + r;
  }

  class TimerFD {
    var clockid: Clock
    var timerType: TimerType
    var isAbstime: bool
    var isCancelOnSet: bool
    var forceCancel: bool
    var monotonicOffset: Timespec
    var itValue: Timespec
    var itInterval: Timespec
    var nrExpirations: int

    /** The kqueue's timer event with ident 0: the monotonic time from which it can be
        delivered.  The one with ident 1 signals a stepped clock. */
    var timerEvent: Option<int>
    var cancelEvent: bool

    /** Whether the 64-bit counter of expirations has wrapped since the timer was set. */
    ghost var wrapped: bool

    ghost function View(): Timer
      reads `timerType, `itValue, `itInterval, `nrExpirations
    {
      Timer(timerType != Unspecified, Nanos(itValue), Nanos(itInterval), nrExpirations)
    }

    predicate UsesMonotonic()
      reads `clockid, `timerType
    {
      clockid == Monotonic || timerType == Relative
    }

    /** The event never comes early: once it can be delivered, there is an expiration to
        report, or the timer's next grid point has been reached. */
    ghost predicate NeverEarly()
      reads `clockid, `timerType, `timerEvent, `wrapped, `nrExpirations, `itValue
    {
      timerType != Unspecified && UsesMonotonic() && timerEvent.Some? ==>
        wrapped || nrExpirations > 0 || timerEvent.value >= Nanos(itValue)
    }

    ghost predicate Valid()
      reads `clockid, `timerType, `timerEvent, `wrapped, `nrExpirations, `itValue, `itInterval, `isAbstime, `isCancelOnSet
    {
      && IsValid(itValue) && IsValid(itInterval) && Sound(View()) && NeverEarly()
      && (timerType == Absolute ==> isAbstime) && (timerType == Relative ==> !isAbstime)
      && (isCancelOnSet ==> clockid == Realtime && isAbstime)
    }

    /** A pending cancellation belongs to a timer on the realtime clock that is not relative and has
        asked for it. */
    ghost predicate CancelSound()
      reads `clockid, `timerType, `forceCancel, `cancelEvent, `isCancelOnSet
    {
      && (cancelEvent ==> forceCancel)
      && (forceCancel ==> clockid == Realtime && timerType != Relative && isCancelOnSet)
    }

    constructor (clock: Clock)
      ensures Valid() && CancelSound() && clockid == clock && timerType == Unspecified && !isAbstime && !wrapped
      ensures View() == Timer(false, 0, 0, 0) && timerEvent == None && !cancelEvent
    {
      clockid, timerType := clock, Unspecified;
      isAbstime, isCancelOnSet, forceCancel := false, false, false;
      monotonicOffset, itValue, itInterval := Timespec(0, 0), Timespec(0, 0), Timespec(0, 0);
      nrExpirations := 0;
      timerEvent, cancelEvent := None, false;
      wrapped := false;
    }

    predicate IsDisarmed()
      reads `itValue
    {
      itValue.sec == 0 && itValue.nsec == 0
    }

    predicate IsIntervalTimer()
      reads `itInterval
    {
      itInterval.sec != 0 || itInterval.nsec != 0
    }

    predicate CanJump()
      reads `clockid, `timerType
    {
      clockid == Realtime && timerType == Absolute
    }

    method DisarmTimer()
      modifies `itValue, `timerType
      ensures itValue == Timespec(0, 0) && timerType == Unspecified
    {
      itValue := itValue.(sec := 0);
      itValue := itValue.(nsec := 0);
      timerType := Unspecified;
    }

    /** `timerfd_ctx_update_to_current_time`. */
    method UpdateToCurrentTime(now: Timespec)
      requires Valid() && IsValid(now)
      modifies `itValue, `timerType, `nrExpirations, `wrapped
      ensures Valid() && View() == CatchUp(old(View()), Nanos(now))
      ensures timerType == old(timerType) || timerType == Unspecified
      ensures wrapped <==> old(wrapped) || old(Wraps(View(), Nanos(now)))
    {
      CatchUpSound(View(), Nanos(now));
      if !Wraps(View(), Nanos(now)) {
        CatchUpProgress(View(), Nanos(now));
      }
      if IsDisarmed() {
        return;
      }
      if IsIntervalTimer() {
        UpdateInterval(now);
      } else if Compare(now, itValue) >= 0 {
        wrapped := wrapped || nrExpirations + 1 >= UINT64;
        nrExpirations := (nrExpirations + 1) % UINT64;
        DisarmTimer();
      }
    }

    /** The interval branch: every early exit is a disarm. */
    method UpdateInterval(now: Timespec)
      requires Valid() && IsValid(now) && timerType != Unspecified && Nanos(itInterval) > 0
      modifies `itValue, `timerType, `nrExpirations, `wrapped
      ensures View() == CatchUp(old(View()), Nanos(now)) && IsValid(itValue)
      ensures timerType == old(timerType) || timerType == Unspecified
      ensures wrapped <==> old(wrapped) || old(Wraps(View(), Nanos(now)))
    {
      ghost var value, interval, t := Nanos(itValue), Nanos(itInterval), Nanos(now);
      var ok, diff := SubSafe(now, itValue);
      if !ok {
        assert false;
      }
      if diff.sec < 0 {
        return;
      }
      OverflowCases(value, interval, t);
      var diffNanos, intervalNanos;
      ok, diffNanos := ToNanos(diff);
      if !ok {
        DisarmTimer();
        return;
      }
      ok, intervalNanos := ToNanos(itInterval);
      if !ok {
        DisarmTimer();
        return;
      }
      AddExpirations(diffNanos, intervalNanos, t);
    }

    /** The count, and the next value, of a timer that is `diffNanos` late. */
    method AddExpirations(diffNanos: int, intervalNanos: int, ghost t: int)
      requires Valid() && timerType != Unspecified && Fits64(diffNanos) && Fits64(intervalNanos)
      requires Nanos(itInterval) == intervalNanos > 0 && t - Nanos(itValue) == diffNanos >= 0
      modifies `itValue, `timerType, `nrExpirations, `wrapped
      ensures View() == CatchUp(old(View()), t) && IsValid(itValue)
      ensures timerType == old(timerType) || timerType == Unspecified
      ensures wrapped <==> old(wrapped) || old(Wraps(View(), t))
    {
      OverflowCases(Nanos(itValue), intervalNanos, t);
      var expirations := diffNanos / intervalNanos;
      if expirations == INT64_MAX {
        DisarmTimer();
        return;
      }
      expirations := expirations + 1;
      if !Fits64(expirations * intervalNanos) {
        DisarmTimer();
        return;
      }
      var ok, next := AddSafe(FromNanos(expirations * intervalNanos), itValue);
      if !ok {
        DisarmTimer();
        return;
      }
      wrapped := wrapped || nrExpirations + expirations >= UINT64;
      nrExpirations := (nrExpirations + expirations) % UINT64;
      itValue := next;
    }

    /** `timerfd_ctx_register_event`: replaces the kqueue's timer event by one for the
        deadline `new_`, or by none when that is ten years away.  The kevent call is made at
        the monotonic time `mono`. */
    method RegisterEvent(new_: Timespec, now: Timespec, mono: int, kev: Kevent) returns (ok: bool)
      requires IsValid(new_) && IsValid(now) && Nanos(new_) != 0
      modifies `timerEvent
      ensures var far := Nanos(new_) - Nanos(now) >= TEN_YEARS * NANOS;
              && (ok <==> kev == Done || (far && kev == AddFailed))
              && timerEvent == if kev == Failed then old(timerEvent)
                               else if far || kev == AddFailed then None
                               else Some(mono + Micros(Nanos(new_), Nanos(now)) * 1000)
      ensures kev == Done && timerEvent.Some? && mono >= Nanos(now) ==> timerEvent.value >= Nanos(new_)
    {
      var subOk, diff := SubSafe(new_, now);
      if !subOk || diff.sec < 0 {
        diff := diff.(sec := 0);
        diff := diff.(nsec := 0);
      }
      var micros := None;
      MicrosOf(diff.sec, diff.nsec, Nanos(new_), Nanos(now));
      if diff.sec < TEN_YEARS {
        var m := diff.sec * 1_000_000 + diff.nsec / 1000;
        if diff.nsec % 1000 != 0 {
          m := m + 1;
        }
        micros := Some(m);
      }
      if kev == Failed {
        return false;
      }
      timerEvent := None;
      if micros == None {
        return true;
      }
      if kev == AddFailed {
        return false;
      }
      timerEvent := Some(mono + micros.value * 1000);
      ok := true;
    }

    /** `timerfd_ctx_check_for_cancel`: whether the clock was stepped under a timer that asked
        to be told.  `offset` is the boot time, if it could be read. */
    method CheckForCancel(offset: Option<Timespec>) returns (cancelled: bool)
      modifies `monotonicOffset, `forceCancel, `cancelEvent
      ensures cancelled ==> clockid == Realtime && timerType == Absolute && isCancelOnSet
      ensures clockid == Realtime ==> !forceCancel
      ensures clockid == Monotonic ==> forceCancel == old(forceCancel)
      ensures old(cancelEvent ==> forceCancel && clockid == Realtime) ==> !cancelEvent
      ensures clockid == Realtime && timerType == Absolute && isCancelOnSet ==>
                (cancelled <==> old(forceCancel) || (offset.Some? && offset.value != old(monotonicOffset)))
    {
      if clockid != Realtime {
        return false;
      }
      var isStepped := false;
      if CanJump() {
        var current := if offset.Some? then offset.value else monotonicOffset;
        isStepped := forceCancel || monotonicOffset.sec != current.sec || monotonicOffset.nsec != current.nsec;
        monotonicOffset := current;
      }
      if forceCancel {
        cancelEvent := false;
      }
      forceCancel := false;
      cancelled := isStepped && isCancelOnSet;
    }

    /** `timerfd_ctx_gettime_impl`: `now` is the time on the timer's clock, none for a timer
        that was never set. */
    method GetTimeImpl(now: Option<Timespec>) returns (cur: ItimerSpec)
      requires Valid() && (now.Some? ==> IsValid(now.value)) && (now.Some? <==> timerType != Unspecified)
      modifies `itValue, `timerType, `nrExpirations, `wrapped
      ensures Valid() && cur.interval == itInterval && IsValid(cur.value)
      ensures timerType == old(timerType) || timerType == Unspecified
      ensures View() == if now.Some? then CatchUp(old(View()), Nanos(now.value)) else old(View())
      ensures wrapped <==> old(wrapped) || (now.Some? && old(Wraps(View(), Nanos(now.value))))
      ensures Nanos(cur.value) == if timerType != Unspecified then Nanos(itValue) - Nanos(now.value) else 0
    {
      if now.Some? {
        CatchUpSound(View(), Nanos(now.value));
        UpdateToCurrentTime(now.value);
      }
      cur := ItimerSpec(itValue, itInterval);
      if now.Some? && !IsDisarmed() {
        assert Compare(now.value, cur.value) < 0;
        var ok, left := SubSafe(cur.value, now.value);
        cur := cur.(value := left);
      }
    }

    /** `timerfd_gettime`: `now` is what reading the timer's clock gave, if anything. */
    method GetTime(now: Option<Timespec>) returns (ec: Errno, cur: ItimerSpec)
      requires Valid() && (now.Some? ==> IsValid(now.value))
      modifies `itValue, `timerType, `nrExpirations, `wrapped
      ensures Valid() && (old(CancelSound()) ==> CancelSound()) && isAbstime == old(isAbstime)
      ensures ec == if old(timerType) != Unspecified && now.None? then SystemError else Ok
      ensures ec == Ok && old(timerType) != Unspecified ==>
                && View() == CatchUp(old(View()), Nanos(now.value))
                && Nanos(cur.value) == if timerType != Unspecified then Nanos(itValue) - Nanos(now.value) else 0
      ensures ec != Ok || old(timerType) == Unspecified ==> View() == old(View())
      ensures ec == Ok && old(timerType) == Unspecified ==> Nanos(cur.value) == 0
      ensures ec == Ok ==> cur.interval == itInterval
      ensures timerType == old(timerType) || timerType == Unspecified
      ensures wrapped <==> old(wrapped) || (ec == Ok && old(timerType) != Unspecified && old(Wraps(View(), Nanos(now.value))))
    {
      cur := ItimerSpec(itValue, itInterval);
      if timerType != Unspecified && now.None? {
        return SystemError, cur;
      }
      cur := GetTimeImpl(if timerType == Unspecified then None else now);
      ec := Ok;
    }

    /** The deadline `value` is set, `now` being the time on its clock: what the kqueue then
        holds. */
    ghost predicate Registered(now: Timespec, mono: int)
      reads `itValue, `timerEvent
    {
      timerEvent == if Nanos(itValue) - Nanos(now) >= TEN_YEARS * NANOS then None
                    else Some(mono + Micros(Nanos(itValue), Nanos(now)) * 1000)
    }

    /** The absolute deadline of a new setting. */
    static method Deadline(absolute: bool, value: Timespec, now: Timespec) returns (ok: bool, target: Timespec)
      requires IsValid(now) && IsValid(value) && Nanos(value) != 0
      ensures ok <==> absolute || Nanos(now) + Nanos(value) < (INT64_MAX + 1) * NANOS
      ensures ok ==> IsValid(target) && Nanos(target) == Nanos(value) + (if absolute then 0 else Nanos(now))
    {
      if absolute {
        return true, value;
      }
      ok, target := AddSafe(now, value);
    }

    /** The arming half of `timerfd_ctx_settime`, once the time `now` on the clock of the new
        setting is known. */
    method Arm(absolute: bool, cancelOnSet: bool, new_: ItimerSpec, now: Timespec, mono: int, kev: Kevent)
      returns (ec: Errno)
      requires Valid() && IsValid(now) && IsValid(new_.value) && IsValid(new_.interval) && Nanos(new_.value) != 0
      requires clockid == Monotonic || !absolute ==> Nanos(now) <= mono
      modifies `timerType, `isAbstime, `isCancelOnSet, `itValue, `itInterval, `nrExpirations, `timerEvent, `wrapped
      ensures Valid() && ec == ArmError(absolute, new_, now, kev)
      ensures ec != Ok ==> View() == old(View()) && isAbstime == old(isAbstime) && timerType == old(timerType) && wrapped == old(wrapped)
      ensures ec != Ok ==> isCancelOnSet == old(isCancelOnSet)
      ensures ec == Ok ==>
                && Set(absolute, new_, Some(now), mono) && nrExpirations == 0 && !wrapped
                && isCancelOnSet == (cancelOnSet && clockid == Realtime && absolute)
    {
      var newType := if absolute then Absolute else Relative;
      var addOk, target := Deadline(absolute, new_.value, now);
      if !addOk {
        return EINVAL;
      }
      var registered := RegisterEvent(target, now, mono, kev);
      if !registered {
        return SystemError;
      }
      Rewrite(ItimerSpec(target, new_.interval), newType, cancelOnSet);
      ec := Ok;
    }

    /** The new setting, once its event is registered. */
    method Rewrite(spec: ItimerSpec, newType: TimerType, cancelOnSet: bool)
      requires IsValid(spec.value) && IsValid(spec.interval) && Nanos(spec.value) > 0 && newType != Unspecified
      requires clockid == Monotonic || newType == Relative ==> timerEvent.None? || timerEvent.value >= Nanos(spec.value)
      modifies `timerType, `isAbstime, `isCancelOnSet, `itValue, `itInterval, `nrExpirations, `wrapped
      ensures Valid() && itValue == spec.value && itInterval == spec.interval && timerType == newType
      ensures isAbstime == (newType == Absolute) && nrExpirations == 0 && !wrapped
      ensures isCancelOnSet == (cancelOnSet && clockid == Realtime && newType == Absolute)
    {
      itValue, itInterval := spec.value, spec.interval;
      timerType := newType;
      isCancelOnSet := cancelOnSet && clockid == Realtime && timerType == Absolute;
      isAbstime := timerType == Absolute;
      nrExpirations := 0;
      wrapped := false;
    }

    /** What arming comes to: the deadline must fit, and the system call must succeed. */
    static ghost function ArmError(absolute: bool, new_: ItimerSpec, now: Timespec, kev: Kevent): Errno {
      var target := Nanos(new_.value) + if absolute then 0 else Nanos(now);
      if !absolute && target >= (INT64_MAX + 1) * NANOS then EINVAL
      else if kev == Done || (kev == AddFailed && target - Nanos(now) >= TEN_YEARS * NANOS) then Ok
      else SystemError
    }

    /** The first half of `timerfd_ctx_settime`: reports the old setting, if it is wanted. */
    method TakeOld(c: SetCall) returns (ok: bool, old_: ItimerSpec, current: Option<Timespec>)
      requires Valid() && c.Proper()
      modifies `itValue, `timerType, `nrExpirations, `wrapped
      ensures Valid() && (ok <==> !LacksTime(c, old(Before())))
      ensures current == OldTime(c, old(Before()))
      ensures ok ==> timerType == TypeThen(c, old(Before()))
      ensures !ok ==> timerType == old(timerType)
      ensures View() == if current.Some? then CatchUp(old(View()), Nanos(current.value)) else old(View())
      ensures wrapped <==> old(wrapped) || (ok && current.Some? && old(Wraps(View(), Nanos(current.value))))
      ensures ok && current.Some? ==> old_.interval == old(itInterval) && Remains(old_.value, old(View()), current.value)
    {
      old_ := ItimerSpec(itValue, itInterval);
      current := None;
      ok := true;
      if c.wantOld {
        if timerType != Unspecified {
          current := c.oldNow;
          if c.oldNow.None? {
            return false, old_, None;
          }
        }
        old_ := GetTimeImpl(current);
      }
    }

    ghost function Before(): Was
      reads `timerType, `isAbstime, `itValue, `itInterval, `nrExpirations, `wrapped
    {
      Was(View(), timerType, isAbstime, itInterval, wrapped)
    }

    /** What is reported of an old setting `t`. */
    static ghost predicate Remains(left: Timespec, t: Timer, now: Timespec) {
      t.interval >= 0 &&
      var was := CatchUp(t, Nanos(now));
      Nanos(left) == if was.armed then was.value - Nanos(now) else 0
    }

    /** The old setting is wanted, and the time on its clock cannot be read. */
    static ghost predicate LacksTime(c: SetCall, was: Was) { c.wantOld && was.timerType != Unspecified && c.oldNow.None? }

    /** The time at which the old setting is reported. */
    static ghost function OldTime(c: SetCall, was: Was): Option<Timespec> {
      if c.wantOld && was.timerType != Unspecified then c.oldNow else None
    }

    /** The type of the timer once the old setting has been reported. */
    static ghost function TypeThen(c: SetCall, was: Was): TimerType {
      var now := OldTime(c, was);
      if now.Some? && was.timer.interval >= 0 && !CatchUp(was.timer, Nanos(now.value)).armed then Unspecified else was.timerType
    }

    /** The time that the new setting counts from: the one at which the old setting was
        reported, when that is on the same clock. */
    static ghost function Current(c: SetCall, current: Option<Timespec>, oldType: TimerType): Option<Timespec> {
      if current.None? || oldType != c.NewType() then c.newNow else current
    }

    static ghost function NewError(c: SetCall, current: Option<Timespec>, oldType: TimerType): Errno {
      var now := Current(c, current, oldType);
      if Nanos(c.spec.value) == 0 then Ok
      else if now.None? then SystemError
      else ArmError(c.absolute, c.spec, now.value, c.kev)
    }

    /** What settime comes to, cancellation apart. */
    static ghost function SetError(c: SetCall, was: Was): Errno {
      if LacksTime(c, was) then SystemError else NewError(c, OldTime(c, was), TypeThen(c, was))
    }

    /** The second half: disarms, or arms for the new setting. */
    method SetNew(c: SetCall, current0: Option<Timespec>) returns (ec: Errno)
      requires Valid() && c.Proper() && (current0.Some? ==> IsValid(current0.value))
      requires clockid == Monotonic || !c.absolute ==>
                 && (c.newNow.Some? ==> Nanos(c.newNow.value) <= c.mono)
                 && (current0.Some? && UsesMonotonic() ==> Nanos(current0.value) <= c.mono)
      modifies `timerType, `isAbstime, `isCancelOnSet, `itValue, `itInterval, `nrExpirations, `timerEvent, `wrapped
      ensures Valid() && ec == NewError(c, current0, old(timerType))
      ensures ec != Ok ==> isAbstime == old(isAbstime) && timerType == old(timerType) && wrapped == old(wrapped) && View() == old(View())
      ensures ec != Ok ==> isCancelOnSet == old(isCancelOnSet)
      ensures ec == Ok ==> SetTo(c, Current(c, current0, old(timerType)))
    {
      if c.spec.value.sec == 0 && c.spec.value.nsec == 0 {
        timerEvent := None;
        DisarmTimer();
        isCancelOnSet := false;
        isAbstime := false;
        nrExpirations := 0;
        wrapped := false;
        return Ok;
      }
      var current := current0;
      var newType := if c.absolute then Absolute else Relative;
      if current.None? || timerType != newType {
        if c.newNow.None? {
          return SystemError;
        }
        current := c.newNow;
      }
      ec := Arm(c.absolute, c.cancelOnSet, c.spec, current.value, c.mono, c.kev);
    }

    /** The timer is armed as asked, counted from the time `now` of its clock. */
    ghost predicate Set(absolute: bool, new_: ItimerSpec, now: Option<Timespec>, mono: int)
      reads `timerType, `isAbstime, `itInterval, `itValue, `timerEvent
    {
      && now.Some? && timerType == (if absolute then Absolute else Relative) && isAbstime == absolute
      && itInterval == new_.interval
      && Nanos(itValue) == Nanos(new_.value) + (if absolute then 0 else Nanos(now.value))
      && Registered(now.value, mono)
    }

    /** The timer starts afresh: disarmed, or armed as asked. */
    ghost predicate SetTo(c: SetCall, now: Option<Timespec>)
      reads `clockid, `timerType, `isAbstime, `isCancelOnSet, `itInterval, `itValue, `timerEvent, `nrExpirations, `wrapped
    {
      && nrExpirations == 0 && !wrapped
      && isCancelOnSet == (c.cancelOnSet && clockid == Realtime && c.absolute && Nanos(c.spec.value) != 0)
      && (if Nanos(c.spec.value) == 0 then timerType == Unspecified && timerEvent == None && !isAbstime
          else Set(c.absolute, c.spec, now, c.mono))
    }

    /** What settime leaves, and returns, where it found `was`: the new setting in force and the
        old one reported, or an error, with nothing changed but what reporting does. */
    ghost predicate Replaced(c: SetCall, was: Was, ec: Errno, old_: ItimerSpec)
      reads `clockid, `timerType, `isAbstime, `isCancelOnSet, `itInterval, `itValue, `timerEvent, `nrExpirations, `wrapped
    {
      && ec == SetError(c, was)
      && (ec == Ok ==> SetTo(c, Current(c, OldTime(c, was), TypeThen(c, was))))
      && (ec != Ok ==>
            && isAbstime == was.isAbstime && (timerType == was.timerType || timerType == Unspecified)
            && View() == (if OldTime(c, was).Some? && was.timer.interval >= 0 then CatchUp(was.timer, Nanos(OldTime(c, was).value)) else was.timer)
            && (wrapped ==> was.wrapped || (OldTime(c, was).Some? && was.timer.interval >= 0 && Wraps(was.timer, Nanos(OldTime(c, was).value)))))
      && (ec == Ok && OldTime(c, was).Some? ==> old_.interval == was.interval && Remains(old_.value, was.timer, OldTime(c, was).value))
    }

    /** `timerfd_ctx_settime`. */
    method SetTime(c: SetCall) returns (ec: Errno, old_: ItimerSpec)
      requires Valid() && CancelSound() && c.TimesProper()
      requires clockid == Monotonic || !c.absolute ==>
                 && (c.newNow.Some? ==> Nanos(c.newNow.value) <= c.mono)
                 && (c.oldNow.Some? && UsesMonotonic() ==> Nanos(c.oldNow.value) <= c.mono)
      modifies `timerType, `isAbstime, `isCancelOnSet, `itValue, `itInterval, `nrExpirations, `timerEvent, `wrapped, `monotonicOffset, `forceCancel, `cancelEvent
      ensures Valid() && CancelSound()
      ensures !c.Proper() ==> ec == EINVAL && Before() == old(Before()) && timerEvent == old(timerEvent)
      ensures c.Proper() ==> Replaced(c, old(Before()), if ec == ECANCELED then Ok else ec, old_)
      ensures c.Proper() && ec in {Ok, ECANCELED} ==>
                (ec == ECANCELED <==> old(isCancelOnSet) && isCancelOnSet && (old(forceCancel) || (c.offset.Some? && c.offset.value != old(monotonicOffset))))
    {
      if !(IsValid(c.spec.value) && IsValid(c.spec.interval)) {
        return EINVAL, ItimerSpec(itValue, itInterval);
      }
      var oldIsCancelOnSet := isCancelOnSet;
      ghost var was := Before();
      ec, old_ := Exchange(c);
      if ec == Ok {
        ec := Confirm(oldIsCancelOnSet, c, was, old_);
      }
    }

    /** `timerfd_ctx_settime` between its first check and its last. */
    method Exchange(c: SetCall) returns (ec: Errno, old_: ItimerSpec)
      requires Valid() && CancelSound() && c.Proper()
      requires clockid == Monotonic || !c.absolute ==>
                 && (c.newNow.Some? ==> Nanos(c.newNow.value) <= c.mono)
                 && (c.oldNow.Some? && UsesMonotonic() ==> Nanos(c.oldNow.value) <= c.mono)
      modifies `timerType, `isAbstime, `isCancelOnSet, `itValue, `itInterval, `nrExpirations, `timerEvent, `wrapped
      ensures Valid() && ec != ECANCELED && Replaced(c, old(Before()), ec, old_) && (ec != Ok ==> CancelSound())
    {
      var ok, current;
      ok, old_, current := TakeOld(c);
      if !ok {
        return SystemError, old_;
      }
      ec := SetNew(c, current);
    }

    /** The last check of `timerfd_ctx_settime`. */
    method Confirm(oldIsCancelOnSet: bool, c: SetCall, ghost was: Was, ghost old_: ItimerSpec) returns (ec: Errno)
      requires Valid() && Replaced(c, was, Ok, old_)
      requires (forceCancel ==> clockid == Realtime) && (cancelEvent ==> forceCancel)
      modifies `monotonicOffset, `forceCancel, `cancelEvent
      ensures Valid() && CancelSound() && Replaced(c, was, Ok, old_) && ec in {Ok, ECANCELED}
      ensures ec == ECANCELED <==>
                oldIsCancelOnSet && isCancelOnSet && (old(forceCancel) || (c.offset.Some? && c.offset.value != old(monotonicOffset)))
    {
      var cancelled := CheckForCancel(c.offset);
      ec := if cancelled && oldIsCancelOnSet then ECANCELED else Ok;
    }

    /** `timerfd_ctx_rearm_kevent`. */
    method Rearm(now: Timespec, mono: int, kev: Kevent, needDelete: bool)
      requires IsValid(itValue) && IsValid(now)
      modifies `timerEvent, `itValue, `timerType
      ensures (itValue == old(itValue) && timerType == old(timerType)) ||
              (kev != Done && timerType == Unspecified && itValue == Timespec(0, 0))
      ensures Nanos(old(itValue)) != 0 && kev == Done ==>
                && Registered(now, mono)
                && (timerEvent.Some? && mono >= Nanos(now) ==> timerEvent.value >= Nanos(itValue))
      ensures Nanos(old(itValue)) != 0 && timerType != Unspecified && kev == AddFailed ==> timerEvent == None
      ensures kev == Failed && Nanos(old(itValue)) != 0 ==> timerType == Unspecified && itValue == Timespec(0, 0)
      ensures Nanos(old(itValue)) == 0 ==> timerEvent == if needDelete then None else old(timerEvent)
    {
      if !IsDisarmed() {
        var ok := RegisterEvent(itValue, now, mono, kev);
        if !ok {
          DisarmTimer();
        }
      } else if needDelete {
        timerEvent := None;
      }
    }

    /** What a read of an absolute timer on the realtime clock returns that no step of the clock has
        cancelled; `u` is the timer caught up with the clock.  The clock may have been set back since
        the event: then a timer that asked for it is cancelled, any other expires by the event,
        a one-shot timer once and an interval timer not yet. */
    static function JumpRead(u: Timer, cancelOnSet: bool, event0: bool): ReadResult {
      if u.expirations > 0 then Expirations(u.expirations)
      else if !event0 then Error(EAGAIN)
      else if !u.armed then Aborts
      else if cancelOnSet then Error(ECANCELED)
      else Expirations(if u.interval > 0 then 0 else 1)
    }

    /** The timer after it. */
    static ghost function JumpLeaves(u: Timer, cancelOnSet: bool, event0: bool): Timer {
      if u.expirations == 0 && event0 && !cancelOnSet && u.interval == 0 then Disarm(u) else u.(expirations := 0)
    }

    /** The event of an absolute timer on the realtime clock is told, also when the clock has been set
        back since: a one-shot timer expires exactly once, an interval timer as often as its grid
        points have passed, and a timer that asked for it is cancelled. */
    static lemma JumpTold(t: Timer, now: int, cancelOnSet: bool)
      requires Sound(t) && t.armed && t.expirations == 0
      ensures t.interval == 0 && (!cancelOnSet || t.value <= now) ==>
                && JumpRead(CatchUp(t, now), cancelOnSet, true) == Expirations(1)
                && !JumpLeaves(CatchUp(t, now), cancelOnSet, true).armed && JumpLeaves(CatchUp(t, now), cancelOnSet, true).expirations == 0
      ensures cancelOnSet && now < t.value ==> JumpRead(CatchUp(t, now), cancelOnSet, true) == Error(ECANCELED)
      ensures t.interval > 0 && (!cancelOnSet || t.value <= now) && Within(t.value, t.interval, now) ==>
                && JumpRead(CatchUp(t, now), cancelOnSet, true) == Expirations(Passed(t.value, t.interval, now))
                && JumpLeaves(CatchUp(t, now), cancelOnSet, true)
                   == Timer(true, t.value + Passed(t.value, t.interval, now) * t.interval, t.interval, 0)
      ensures now < t.value ==> JumpRead(CatchUp(t, now), cancelOnSet, false) == Error(EAGAIN)
    {
    }

    /** `timerfd_ctx_read`.  The kqueue hands over the timer event if `event0`, the event of a
        stepped clock if `event1`, at the monotonic time `at`; `now` is what reading the
        timer's clock gives after that, and `mono` the time of the re-registration. */
    method Read(event0: bool, event1: bool, kqueueFails: bool, at: int, now: Option<Timespec>,
                mono: int, kev: Kevent, offset: Option<Timespec>)
      returns (r: ReadResult)
      requires Valid() && CancelSound() && (now.Some? ==> IsValid(now.value))
      requires event0 ==> timerEvent.Some? && timerEvent.value <= at
      requires event1 ==> cancelEvent
      requires UsesMonotonic() && now.Some? ==> at <= Nanos(now.value) <= mono
      modifies this
      ensures Valid() && CancelSound() && clockid == old(clockid) && isAbstime == old(isAbstime)
      ensures old(timerType) == Unspecified ==> r == Error(EAGAIN) && View() == old(View()) && timerEvent == old(timerEvent)
      ensures old(timerType == Relative || (timerType == Absolute && clockid == Monotonic)) && !kqueueFails && now.Some? ==>
                var u := CatchUp(old(View()), Nanos(now.value));
                && r == (if u.expirations > 0 then Expirations(u.expirations) else if event0 then Aborts else Error(EAGAIN))
                && (kev == Done && r != Aborts ==> View() == u.(expirations := 0))
                && (r != Aborts ==> View() == u.(expirations := 0) || View() == Disarm(u.(expirations := 0)))
      ensures kqueueFails || now.None? ==> View() == old(View())
      ensures old(clockid == Realtime && timerType == Absolute) && !kqueueFails ==>
                var cancelled := old(isCancelOnSet && (forceCancel || (offset.Some? && offset.value != monotonicOffset)));
                && r == (if cancelled then Error(ECANCELED) else if now.None? then Error(SystemError)
                         else JumpRead(CatchUp(old(View()), Nanos(now.value)), isCancelOnSet, event0))
                && (now.Some? && r != Aborts && kev == Done ==>
                      View() == if cancelled then old(View()) else JumpLeaves(CatchUp(old(View()), Nanos(now.value)), isCancelOnSet, event0))
      ensures kqueueFails && old(timerType) != Unspecified ==> r == Error(SystemError)
      ensures isCancelOnSet == old(isCancelOnSet)
      ensures old(timerType != Unspecified && UsesMonotonic()) && (kqueueFails || now.None?) ==> r == Error(SystemError)
      ensures timerType == old(timerType) || timerType == Unspecified
      ensures wrapped ==> old(wrapped) || (now.Some? && old(timerType) != Unspecified && old(Wraps(View(), Nanos(now.value))))
      ensures old(wrapped) ==> wrapped
      ensures old(timerType != Unspecified && UsesMonotonic()) && !kqueueFails && now.Some? ==>
                && (wrapped <==> old(wrapped) || old(Wraps(View(), Nanos(now.value))))
                && (r.Expirations? && kev == Done && timerType != Unspecified ==> Registered(now.value, mono))
                && (!r.Expirations? && !event0 ==> timerEvent == old(timerEvent))
      ensures r == Aborts ==>
                && now.Some? && event0
                && (wrapped || old(nrExpirations == 0 && Nanos(itInterval) > 0 && Overflows(Nanos(itValue), Nanos(itInterval), Nanos(now.value))))
    {
      if timerType == Unspecified {
        return Error(EAGAIN);
      }
      if kqueueFails {
        return Error(SystemError);
      }
      var gotKevent, ident := event0 || event1, if event0 then 0 else 1;
      var cancelled := TakeEvents(event0, event1, offset);
      if cancelled && gotKevent && ident == 0 {
        return Error(ECANCELED);
      }
      assert !cancelled || !gotKevent || ident != 0;
      if now.None? {
        return Error(if cancelled then ECANCELED else SystemError);
      }
      if event0 && old(UsesMonotonic()) && !wrapped && !Wraps(View(), Nanos(now.value)) {
        DueCounts(View(), Nanos(now.value));
      }
      r := Finish(event0, gotKevent, ident, cancelled, now.value, mono, kev);
    }

    /** The kqueue's part of `timerfd_ctx_read`, and the check for a stepped clock. */
    method TakeEvents(event0: bool, event1: bool, offset: Option<Timespec>) returns (cancelled: bool)
      requires Valid() && CancelSound() && (event1 ==> cancelEvent)
      modifies `timerEvent, `cancelEvent, `monotonicOffset, `forceCancel
      ensures Valid() && CancelSound() && !cancelEvent
      ensures timerEvent == if event0 then None else old(timerEvent)
      ensures cancelled <==> CanJump() && isCancelOnSet && (old(forceCancel) || (offset.Some? && offset.value != old(monotonicOffset)))
      ensures event1 && timerType != Unspecified ==> cancelled
    {
      timerEvent := if event0 then None else timerEvent;
      cancelEvent := cancelEvent && !event1;
      cancelled := CheckForCancel(offset);
    }

    /** `timerfd_ctx_read` from the update onwards; `event0` says whether the timer event has been
        taken. */
    method Finish(ghost event0: bool, gotKevent: bool, ident: nat, cancelled0: bool, now: Timespec,
                  mono: int, kev: Kevent)
      returns (r: ReadResult)
      requires Valid() && CancelSound() && IsValid(now) && timerType != Unspecified && !cancelEvent
      requires cancelled0 ==> CanJump() && isCancelOnSet
      requires (event0 ==> gotKevent && ident == 0 && timerEvent == None) && (gotKevent && !event0 ==> ident != 0 && cancelled0)
      requires UsesMonotonic() ==> Nanos(now) <= mono
      modifies this
      ensures Valid() && CancelSound() && clockid == old(clockid) && isAbstime == old(isAbstime) && isCancelOnSet == old(isCancelOnSet)
      ensures old(CanJump()) ==>
                var u := CatchUp(old(View()), Nanos(now));
                && r == (if cancelled0 then Error(ECANCELED) else JumpRead(u, isCancelOnSet, event0))
                && (r != Aborts && kev == Done ==> View() == if cancelled0 then old(View()) else JumpLeaves(u, isCancelOnSet, event0))
                && (!cancelled0 ==> (wrapped <==> old(wrapped) || old(Wraps(View(), Nanos(now)))))
      ensures old(UsesMonotonic()) ==>
                var u := CatchUp(old(View()), Nanos(now));
                && r == (if u.expirations > 0 then Expirations(u.expirations) else if event0 then Aborts else Error(EAGAIN))
                && (kev == Done && r != Aborts ==> View() == u.(expirations := 0))
                && (r != Aborts ==> View() == u.(expirations := 0) || View() == Disarm(u.(expirations := 0)))
                && (wrapped <==> old(wrapped) || old(Wraps(View(), Nanos(now))))
                && (r.Expirations? && kev == Done && timerType != Unspecified ==> Registered(now, mono))
                && (!r.Expirations? ==> timerEvent == old(timerEvent))
      ensures timerType == old(timerType) || timerType == Unspecified
      ensures wrapped ==> old(wrapped) || old(Wraps(View(), Nanos(now)))
      ensures old(wrapped) ==> wrapped
    {
      var cancelled := cancelled0;
      var nr := 0;
      if !cancelled {
        UpdateToCurrentTime(now);
        nr := nrExpirations;
        nrExpirations := 0;
        if nr == 0 {
          if !gotKevent {
            return Error(EAGAIN);
          }
          if ident != 0 || !CanJump() {
            return Aborts;
          }
          if isCancelOnSet {
            cancelled := true;
          } else if !IsIntervalTimer() {
            DisarmTimer();
            nr := 1;
          }
        }
      }
      if !(cancelled || nr > 0 || (CanJump() && IsIntervalTimer() && !isCancelOnSet)) {
        return Aborts;
      }
      Rearm(now, mono, kev, !gotKevent || ident != 0);
      r := if cancelled then Error(ECANCELED) else Expirations(nr);
    }

    /** `timerfd_ctx_realtime_change`: the clock was stepped.  A timer that asked for it gets
        its cancellation event; any other, unless its event is already there (`readable`), is
        registered afresh against the new time. */
    method RealtimeChange(offset: Option<Timespec>, readable: bool, now: Option<Timespec>, mono: int, kev: Kevent)
      requires Valid() && CancelSound() && (now.Some? ==> IsValid(now.value))
      modifies `monotonicOffset, `forceCancel, `cancelEvent, `timerEvent, `itValue, `timerType
      ensures Valid() && CancelSound()
      ensures old(clockid != Realtime || timerType != Absolute) || offset.None? || offset.value == old(monotonicOffset) ==>
                forceCancel == old(forceCancel) && cancelEvent == old(cancelEvent) && View() == old(View())
      ensures old(clockid == Realtime && timerType == Absolute) && offset.Some? && offset.value != old(monotonicOffset) && isCancelOnSet ==>
                forceCancel && cancelEvent && View() == old(View())
      ensures old(clockid == Realtime && timerType == Absolute) && offset.Some? && offset.value != old(monotonicOffset) && !isCancelOnSet ==>
                && forceCancel == old(forceCancel) && cancelEvent == old(cancelEvent) && monotonicOffset == offset.value
                && (if readable || now.None? then timerEvent == old(timerEvent) && View() == old(View())
                    else if kev == Done then Registered(now.value, mono) && View() == old(View())
                    else kev == Failed ==> timerType == Unspecified)
      ensures old(UsesMonotonic()) ==> timerEvent == old(timerEvent) && View() == old(View())
    {
      if !CanJump() || offset.None? {
        return;
      }
      if monotonicOffset.sec == offset.value.sec && monotonicOffset.nsec == offset.value.nsec {
        return;
      }
      monotonicOffset := offset.value;
      if !isCancelOnSet {
        if readable || now.None? {
          return;
        }
        Rearm(now.value, mono, kev, true);
      } else {
        forceCancel := true;
        cancelEvent := true;
      }
    }

    // -- runs --

    /** The timer runs on the monotonic clock, or has stopped. */
    ghost predicate Steady()
      reads `clockid, `timerType
    {
      timerType == Unspecified || UsesMonotonic()
    }

    /** One read or gettime of a run.  The timer event is delivered to a read only if it is due. */
    method Take(s: Step) returns (got: int)
      requires Valid() && CancelSound() && Steady() && !wrapped && s.Proper()
      requires Fits(View(), Nanos(s.now))
      modifies this
      ensures Valid() && CancelSound() && Steady() && !wrapped && clockid == old(clockid)
      ensures (View(), got) == Apply(old(View()), s.AsCall())
    {
      FitsKept(View(), s.AsCall(), Nanos(s.now));
      got := 0;
      if s.ReadStep? {
        var due := s.event && timerEvent.Some? && timerEvent.value <= s.at;
        var r := Read(due, false, false, s.at, Some(s.now), s.mono, Done, None);
        assert r != Aborts;
        got := if r.Expirations? then r.n else 0;
      } else {
        var ec, cur := GetTime(Some(s.now));
      }
    }

    /** Any run of reads and gettimes of a timer on the monotonic clock, up to the time `last`: as
        long as catching up to it does not overflow nor wrap the counter, no assertion fails, and
        what has been read and what is left is what the exact account says. */
    method Run(steps: seq<Step>, ghost last: int) returns (got: int)
      requires Valid() && CancelSound() && Steady() && !wrapped && Fits(View(), last)
      requires forall i :: 0 <= i < |steps| ==> steps[i].Proper() && Nanos(steps[i].now) <= last
      requires NonDecreasing(Calls(steps))
      modifies this
      ensures Valid() && CancelSound() && Steady() && !wrapped && clockid == old(clockid)
      ensures (View(), got) == Total(old(View()), Calls(steps))
      decreases |steps|
    {
      got := 0;
      if steps != [] {
        FitsKept(View(), steps[0].AsCall(), last);
        FitsSooner(View(), Nanos(steps[0].now), last);
        assert Calls(steps)[1..] == Calls(steps[1..]);
        got := Take(steps[0]);
        var rest := Run(steps[1..], last);
        got := got + rest;
      }
    }

    /** What one call makes of a timer on the monotonic clock, and returns: settime sets it or
        reports an error; gettime and read catch up with the clock, and read hands over what
        there is; if the timer cannot be registered anew it is disarmed. */
    static ghost predicate Made(was: Was, s: AnyStep, result: AnyResult, now: Was) {
      match s
      case AnySet(_, c) =>
        && result.SetDone?
        && (!c.Proper() ==> result.ec == EINVAL && now == was)
        && (c.Proper() ==>
              && result.ec == SetError(c, was)
              && now.timer ==
                 if result.ec == Ok then
                   if Nanos(c.spec.value) == 0 then Disarm(now.timer).(expirations := 0)
                   else Timer(true, FirstAsked(c, was), Nanos(c.spec.interval), 0)
                 else if OldTime(c, was).Some? && was.timer.interval >= 0 then CatchUp(was.timer, Nanos(OldTime(c, was).value))
                 else was.timer)
      case AnyGet(time) =>
        && result.GetDone? && result.ec == (if was.timer.armed && time.None? then SystemError else Ok)
        && (was.timer.armed && time.Some? && was.timer.interval >= 0 ==>
              && now.timer == CatchUp(was.timer, Nanos(time.value))
              && result.left == if now.timer.armed then now.timer.value - Nanos(time.value) else 0)
        && (!was.timer.armed || time.None? ==> now.timer == was.timer)
      case AnyRead(time, event, kqueueFails, at, mono, kev) =>
        && result.ReadDone?
        && (if !was.timer.armed then result.r == Error(EAGAIN) && now.timer == was.timer
            else if kqueueFails || time.None? then result.r == Error(SystemError) && now.timer == was.timer
            else was.timer.interval >= 0 ==>
              var u := CatchUp(was.timer, Nanos(time.value));
              && result.r == (if u.expirations > 0 then Expirations(u.expirations) else Error(EAGAIN))
              && (now.timer == u.(expirations := 0) || (kev != Done && now.timer == Disarm(u.(expirations := 0)))))
    }

    /** A settime, a gettime or a read of any kind, with any failures. */
    method TakeAny(s: AnyStep, ghost interval: int, ghost last: int) returns (result: AnyResult)
      requires Valid() && CancelSound() && clockid == Monotonic && !wrapped && Modest(View(), interval)
      requires s.Proper(interval, last) && 0 <= interval && last + interval <= INT64_MAX
      modifies this
      ensures Valid() && CancelSound() && clockid == Monotonic && !wrapped && Modest(View(), interval)
      ensures Made(old(Before()), s, result, Before())
    {
      if s.now.Some? {
        ModestKept(View(), Nanos(s.now.value), interval);
      }
      match s {
        case AnySet(_, call) =>
          var ec, old_ := SetTime(call);
          result := SetDone(ec);
        case AnyGet(now) =>
          var ec, cur := GetTime(now);
          result := GetDone(ec, Nanos(cur.value));
        case AnyRead(now, event, kqueueFails, at, mono, kev) =>
          var due := event && timerEvent.Some? && timerEvent.value <= at;
          var r := Read(due, false, kqueueFails, at, now, mono, kev, None);
          result := ReadDone(r);
      }
    }

    /** Over any run of settimes, gettimes and reads of a timer on the monotonic clock, failing
        calls included, every call makes of the timer what it should, and no assertion fails, as
        long as no time plus interval is beyond 64 bits of nanoseconds. */
    method RunAny(steps: seq<AnyStep>, ghost interval: int, ghost last: int) returns (results: seq<AnyResult>, ghost states: seq<Was>)
      requires Valid() && CancelSound() && clockid == Monotonic && !wrapped && Modest(View(), interval)
      requires forall i :: 0 <= i < |steps| ==> steps[i].Proper(interval, last)
      requires 0 <= interval && last + interval <= INT64_MAX
      modifies this
      ensures Valid() && CancelSound() && !wrapped && Modest(View(), interval)
      ensures |results| == |steps| && |states| == |steps| + 1 && states[0] == old(Before()) && states[|steps|] == Before()
      ensures forall i :: 0 <= i < |steps| ==> Made(states[i], steps[i], results[i], states[i + 1])
    {
      results, states := [], [Before()];
      for i := 0 to |steps|
        invariant Valid() && CancelSound() && clockid == Monotonic && !wrapped && Modest(View(), interval)
        invariant |results| == i && |states| == i + 1 && states[0] == old(Before()) && states[i] == Before()
        invariant forall k :: 0 <= k < i ==> Made(states[k], steps[k], results[k], states[k + 1])
      {
        var result := TakeAny(steps[i], interval, last);
        results, states := results + [result], states + [Before()];
      }
    }

    /** The first expiration that a settime asks for, on the clock of the timer. */
    static ghost function FirstAsked(c: SetCall, was: Was): int {
      var from := Current(c, OldTime(c, was), TypeThen(c, was));
      Nanos(c.spec.value) + if c.absolute || from.None? then 0 else Nanos(from.value)
    }

    /** What a settime comes to, and when its timer first expires: a relative setting counts from
        the time at which a relative timer that goes on was reported, or else from the time read for
        it; the deadline must be within 64 bits of seconds, and the event must be registered, except
        that there is none for ten years or more. */
    static lemma SettimeMeans(c: SetCall, was: Was)
      requires c.Proper() && Sound(was.timer) && (was.timer.armed <==> was.timerType != Unspecified)
      ensures c.wantOld && was.timer.armed && c.oldNow.None? ==> SetError(c, was) == SystemError
      ensures !(c.wantOld && was.timer.armed && c.oldNow.None?) ==>
                var newType := if c.absolute then Absolute else Relative;
                var goesOn := c.wantOld && was.timerType == newType && CatchUp(was.timer, Nanos(c.oldNow.value)).armed;
                var now, value := if goesOn then c.oldNow else c.newNow, Nanos(c.spec.value);
                && (value == 0 ==> SetError(c, was) == Ok)
                && (value > 0 && now.None? ==> SetError(c, was) == SystemError)
                && (value > 0 && now.Some? ==>
                      var target := if c.absolute then value else Nanos(now.value) + value;
                      && (SetError(c, was) == EINVAL <==> !c.absolute && target >= 0x8000_0000_0000_0000 * 1_000_000_000)
                      && (SetError(c, was) == SystemError <==>
                            SetError(c, was) != EINVAL && (c.kev == Failed || (c.kev == AddFailed && target - Nanos(now.value) < 315_360_000 * 1_000_000_000)))
                      && SetError(c, was) in {Ok, EINVAL, SystemError}
                      && FirstAsked(c, was) == target)
    {
    }

    /** A settime that arms the timer on the monotonic clock. */
    method StartTimer(c: SetCall) returns (ec: Errno)
      requires Valid() && CancelSound() && clockid == Monotonic && c.Proper() && Nanos(c.spec.value) > 0
      requires (c.newNow.Some? ==> Nanos(c.newNow.value) <= c.mono) && (c.oldNow.Some? ==> Nanos(c.oldNow.value) <= c.mono)
      modifies this
      ensures Valid() && CancelSound() && clockid == Monotonic && ec == old(SetError(c, Before()))
      ensures ec == Ok ==> !wrapped && View() == Timer(true, FirstAsked(c, old(Before())), Nanos(c.spec.interval), 0)
    {
      var old_;
      ec, old_ := SetTime(c);
    }

    /** Conservation on the descriptor, from a timer that has just been set: everything that reads
        return, and what is left, is the grid points passed. */
    method RunFresh(steps: seq<Step>, ghost value: int, ghost interval: int) returns (got: int)
      requires Valid() && CancelSound() && Steady() && !wrapped && View() == Timer(true, value, interval, 0)
      requires steps != [] && NonDecreasing(Calls(steps)) && forall i :: 0 <= i < |steps| ==> steps[i].Proper()
      requires Within(value, interval, Nanos(steps[|steps| - 1].now))
      modifies this
      ensures Valid() && CancelSound()
      ensures Accounted(View(), got, value, interval, Nanos(steps[|steps| - 1].now))
    {
      ghost var t, last := View(), Nanos(steps[|steps| - 1].now);
      StepsEnd(steps);
      got := Run(steps, last);
      ExactAccount(t, Calls(steps));
    }

    /** After a settime that asks for `v` and then every `i`, at the time t0 of its clock, all that
        any reads and gettimes return and leave is the grid points t0 + v + k*i that have passed. */
    method SetAndRun(c: SetCall, steps: seq<Step>) returns (ec: Errno, got: int)
      requires Valid() && CancelSound() && clockid == Monotonic && c.Proper() && Nanos(c.spec.value) > 0
      requires (c.newNow.Some? ==> Nanos(c.newNow.value) <= c.mono) && (c.oldNow.Some? ==> Nanos(c.oldNow.value) <= c.mono)
      requires steps != [] && NonDecreasing(Calls(steps)) && forall i :: 0 <= i < |steps| ==> steps[i].Proper()
      requires Within(FirstAsked(c, Before()), Nanos(c.spec.interval), Nanos(steps[|steps| - 1].now))
      modifies this
      ensures Valid() && CancelSound() && ec == old(SetError(c, Before()))
      ensures ec == Ok ==>
                Accounted(View(), got, FirstAsked(c, old(Before())), Nanos(c.spec.interval), Nanos(steps[|steps| - 1].now))
    {
      got := 0;
      ghost var value := FirstAsked(c, Before());
      ec := StartTimer(c);
      if ec == Ok {
        got := RunFresh(steps, value, Nanos(c.spec.interval));
      }
    }

    /** gettime at any later time reports what is left until the next of these grid points. */
    method SetRunAndGet(c: SetCall, steps: seq<Step>, now: Timespec) returns (ec: Errno, cur: ItimerSpec)
      requires Valid() && CancelSound() && clockid == Monotonic && c.Proper() && Nanos(c.spec.value) > 0 && IsValid(now)
      requires (c.newNow.Some? ==> Nanos(c.newNow.value) <= c.mono) && (c.oldNow.Some? ==> Nanos(c.oldNow.value) <= c.mono)
      requires NonDecreasing(Calls(steps)) && forall i :: 0 <= i < |steps| ==> steps[i].Proper() && Nanos(steps[i].now) <= Nanos(now)
      requires Within(FirstAsked(c, Before()), Nanos(c.spec.interval), Nanos(now))
      modifies this
      ensures Valid() && CancelSound() && ec == old(SetError(c, Before()))
      ensures ec == Ok ==>
                && Nanos(cur.value) == Distance(FirstAsked(c, old(Before())), Nanos(c.spec.interval), Nanos(now))
                && Nanos(cur.interval) == Nanos(c.spec.interval)
    {
      cur := ItimerSpec(itValue, itInterval);
      ghost var value, interval, reached := FirstAsked(c, Before()), Nanos(c.spec.interval), -1;
      if steps == [] {
        ec := StartTimer(c);
        assert Passed(value, interval, reached) == 0;
      } else {
        reached := Nanos(steps[|steps| - 1].now);
        WithinSooner(value, interval, reached, Nanos(now));
        var got;
        ec, got := SetAndRun(c, steps);
      }
      if ec == Ok {
        cur := GetLeft(now, value, reached);
      }
    }

    method GetLeft(now: Timespec, ghost value: int, ghost reached: int) returns (cur: ItimerSpec)
      requires Valid() && CancelSound() && IsValid(now) && timerType != Unspecified && reached <= Nanos(now) && value > 0
      requires var interval := Nanos(itInterval);
               && interval > 0 && !Overflows(value, interval, Nanos(now))
               && Nanos(itValue) == value + Passed(value, interval, reached) * interval
      modifies this
      ensures Valid() && CancelSound() && cur.interval == itInterval == old(itInterval)
      ensures Nanos(cur.value) == Distance(value, Nanos(itInterval), Nanos(now))
    {
      RemainingLater(value, Nanos(itInterval), nrExpirations, reached, Nanos(now));
      var ec;
      ec, cur := GetTime(Some(now));
    }
  }

  /** What a settime, a gettime or a read returns. */
  datatype AnyResult = SetDone(ec: Errno) | GetDone(ec: Errno, left: int) | ReadDone(r: ReadResult)

  /** A read, with what the kernel does around it, or a gettime; `now` is the time on the clock. */
  datatype Step = ReadStep(now: Timespec, event: bool, at: int, mono: int) | GetStep(now: Timespec)
  {
    ghost predicate Proper() { IsValid(now) && (ReadStep? ==> at <= Nanos(now) <= mono) }

    ghost function AsCall(): Call { if ReadStep? then CatchUps.Read(Nanos(now)) else CatchUps.GetTime(Nanos(now)) }
  }

  /** Any call, with the time on the clock, if it can be read, and what else the system does. */
  datatype AnyStep =
    | AnySet(now: Option<Timespec>, call: SetCall)
    | AnyGet(now: Option<Timespec>)
    | AnyRead(now: Option<Timespec>, event: bool, kqueueFails: bool, at: int, mono: int, kev: Kevent)
  {
    ghost predicate Proper(interval: int, last: int) {
      && (now.Some? ==> IsValid(now.value) && Nanos(now.value) <= last)
      && (AnySet? ==>
            && call.TimesProper() && now == call.oldNow
            && (call.newNow.Some? ==> Nanos(call.newNow.value) <= call.mono) && (call.oldNow.Some? ==> Nanos(call.oldNow.value) <= call.mono)
            && (call.Proper() ==> Nanos(call.spec.interval) <= interval))
      && (AnyRead? && now.Some? ==> at <= Nanos(now.value) <= mono)
    }
  }

  ghost function Calls(steps: seq<Step>): seq<Call> { seq(|steps|, i requires 0 <= i < |steps| => steps[i].AsCall()) }

  /** What was read and what is stored are the grid points passed, and the timer waits for the
      next. */
  ghost predicate Accounted(t: Timer, got: int, value: int, interval: int, last: int) {
    && interval > 0 && t.armed && t.interval == interval
    && got + t.expirations == Passed(value, interval, last)
    && t.value == value + Passed(value, interval, last) * interval
  }

  lemma ExactAccount(t: Timer, calls: seq<Call>)
    requires Sound(t) && t.armed && t.expirations == 0 && calls != [] && NonDecreasing(calls)
    requires Within(t.value, t.interval, calls[|calls| - 1].now)
    ensures var (u, read) := Total(t, calls);
            Accounted(u, read, t.value, t.interval, calls[|calls| - 1].now)
  {
    var wraps := Conservation(t, calls);
  }

  /** Neither the grid up to `last` nor its count leaves 64 bits. */
  ghost predicate Within(value: int, interval: int, last: int) {
    interval > 0 && !Overflows(value, interval, last) && Passed(value, interval, last) < UINT64
  }

  lemma WithinSooner(value: int, interval: int, sooner: int, last: int)
    requires sooner <= last && Within(value, interval, last)
    ensures Within(value, interval, sooner)
  {
    OverflowSplits(value, interval, sooner, last);
    PassedSplits(value, interval, sooner, last);
  }

  lemma StepsEnd(steps: seq<Step>)
    requires steps != [] && NonDecreasing(Calls(steps))
    ensures Calls(steps) != [] && Calls(steps)[|steps| - 1].now == Nanos(steps[|steps| - 1].now)
    ensures forall i :: 0 <= i < |steps| ==> Nanos(steps[i].now) <= Nanos(steps[|steps| - 1].now)
  {
    assert forall i :: 0 <= i < |steps| ==> Calls(steps)[i].now == Nanos(steps[i].now);
  }
}
