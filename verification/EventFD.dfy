/** The event counter: a bounded 64-bit counter with a readiness flag. */
module EventFDs {
  import opened KQueueEvents

  const UINT64_MAX: int := 0xffff_ffff_ffff_ffff

  datatype Errno = Ok | EINVAL | EAGAIN | SystemError

  // ---- what the operations mean ----

  /** `zeroes` remembers a write of 0 since the counter was last read down to 0: it makes the
      descriptor readable although there is nothing to read. */
  datatype Counter = Counter(value: int, semaphore: bool, zeroes: bool)

  datatype Op = Write(n: int) | Read

  /** A write is taken when it is not UINT64_MAX and the sum stays below UINT64_MAX. */
  predicate Accepts(c: Counter, n: int) {
    n != UINT64_MAX && c.value + n <= UINT64_MAX - 1
  }

  /** One operation: the new state, what was put in and what was read. */
  function Apply(c: Counter, op: Op): (Counter, int, int) {
    match op
    case Write(n) =>
      if Accepts(c, n) then (c.(value := c.value + n, zeroes := c.zeroes || n == 0), n, 0) else (c, 0, 0)
    case Read =>
      if c.value == 0 then (c, 0, 0)
      else if c.semaphore then
        (c.(value := c.value - 1, zeroes := c.zeroes && c.value > 1), 0, 1)
      else
        (c.(value := 0, zeroes := false), 0, c.value)
  }

  predicate Sound(c: Counter) { 0 <= c.value <= UINT64_MAX - 1 }

  function Run(c: Counter, ops: seq<Op>): (r: (Counter, int, int))
    decreases |ops|
  {
    if ops == [] then (c, 0, 0)
    else
      var (c1, in1, out1) := Apply(c, ops[0]);
      var (c2, in2, out2) := Run(c1, ops[1..]);
      (c2, in1 + in2, out1 + out2)
  }

  ghost predicate Unsigned(ops: seq<Op>) {
    forall i :: 0 <= i < |ops| && ops[i].Write? ==> 0 <= ops[i].n <= UINT64_MAX
  }

  /** Conservation, in both modes: the initial value plus all accepted writes is the counter
      plus everything read; and the counter never exceeds 2^64 - 2. */
  lemma {:induction false} Conservation(c: Counter, ops: seq<Op>)
    requires Sound(c) && Unsigned(ops)
    ensures var (end, written, read) := Run(c, ops);
            && Sound(end) && end.semaphore == c.semaphore
            && c.value + written == end.value + read && written >= 0 && read >= 0
    decreases |ops|
  {
    if ops != [] {
      var op := ops[0];
      var (c1, in1, out1) := Apply(c, op);
      Conservation(c1, ops[1..]);
    }
  }

  /** As long as every write is non-zero, the descriptor is readable exactly when the counter
      is positive. */
  lemma {:induction false} NonZeroWrites(c: Counter, ops: seq<Op>)
    requires Sound(c) && Unsigned(ops) && !c.zeroes
    requires forall i :: 0 <= i < |ops| && ops[i].Write? ==> ops[i].n != 0
    ensures !Run(c, ops).0.zeroes
    decreases |ops|
  {
    if ops != [] {
      NonZeroWrites(Apply(c, ops[0]).0, ops[1..]);
    }
  }

  /** No read takes the counter down to 0. */
  predicate NeverEmptied(c: Counter, ops: seq<Op>)
    decreases |ops|
  {
    ops == [] ||
    (&& !(ops[0].Read? && c.value > 0 && Apply(c, ops[0]).0.value == 0)
     && NeverEmptied(Apply(c, ops[0]).0, ops[1..]))
  }

  /** Exactly when a descriptor may be readable with nothing to read: some write was of 0, and
      since then no read has taken the counter down to 0. */
  lemma {:induction false} ZeroesExactly(c: Counter, ops: seq<Op>)
    requires Sound(c) && Unsigned(ops)
    ensures Run(c, ops).0.zeroes
            <==> (c.zeroes && NeverEmptied(c, ops)) || ZeroWritten(c, ops)
    decreases |ops|
  {
    if ops != [] {
      ZeroesExactly(Apply(c, ops[0]).0, ops[1..]);
      ZeroWrittenStep(c, ops);
    } else {
      assert !ZeroWritten(c, ops);
    }
  }

  /** Some write is of 0, and after it no read takes the counter down to 0. */
  predicate ZeroWritten(c: Counter, ops: seq<Op>) {
    exists i :: 0 <= i < |ops| && ops[i] == Write(0) && NeverEmptied(Run(c, ops[..i]).0, ops[i..])
  }

  lemma ZeroWrittenStep(c: Counter, ops: seq<Op>)
    requires ops != []
    ensures ZeroWritten(c, ops) <==> (ops[0] == Write(0) && NeverEmptied(c, ops)) || ZeroWritten(Apply(c, ops[0]).0, ops[1..])
  {
    var c1, rest := Apply(c, ops[0]).0, ops[1..];
    assert ops[..0] == [] && ops[0..] == ops;
    if i :| 0 <= i < |ops| && ops[i] == Write(0) && NeverEmptied(Run(c, ops[..i]).0, ops[i..]) {
      if i > 0 {
        LaterStart(c, ops, i - 1);
        assert rest[i - 1] == Write(0);
      }
    }
    if i :| 0 <= i < |rest| && rest[i] == Write(0) && NeverEmptied(Run(c1, rest[..i]).0, rest[i..]) {
      LaterStart(c, ops, i);
      assert ops[i + 1] == Write(0);
    }
  }

  lemma LaterStart(c: Counter, ops: seq<Op>, i: nat)
    requires i < |ops| - 1
    ensures Run(c, ops[..i + 1]).0 == Run(Apply(c, ops[0]).0, ops[1..][..i]).0 && ops[i + 1..] == ops[1..][i..]
  {
    assert ops[..i + 1][1..] == ops[1..][..i];
  }

  /** A write of 0 breaks the converse: with the counter at 0 it triggers the descriptor, and
      the read that follows finds nothing and leaves the trigger in place. */
  lemma ZeroWriteStaysTriggered(c: Counter)
    requires c.value == 0
    ensures Run(c, [Write(0), Read]) == (c.(zeroes := true), 0, 0)
  {
    var c1 := Apply(c, Write(0)).0;
    assert Run(c1, [Read]) == (c1, 0, 0) by {
      assert [Read][1..] == [];
    }
    assert [Write(0), Read][1..] == [Read];
  }

  /** In semaphore mode each successful read takes exactly one. */
  lemma {:induction false} SemaphoreReads(c: Counter, times: nat)
    requires Sound(c) && c.semaphore
    ensures var (end, _, read) := Run(c, seq(times, _ => Read));
            read == (if times <= c.value then times else c.value) && end.value == c.value - read
    decreases times
  {
    if times > 0 {
      var ops := seq(times, _ => Read);
      assert ops[1..] == seq(times - 1, _ => Read);
      SemaphoreReads(Apply(c, Read).0, times - 1);
    }
  }

  /** In ordinary mode a read after any operations takes all that was put in and not yet read, and
      leaves nothing for the next one. */
  lemma PlainRead(c: Counter, ops: seq<Op>)
    requires Sound(c) && Unsigned(ops) && !c.semaphore
    ensures var (end, written, read) := Run(c, ops);
            var (after_, _, taken) := Apply(end, Read);
            && taken == c.value + written - read && after_.value == 0
            && Apply(after_, Read) == (after_, 0, 0)
  {
    Conservation(c, ops);
  }

  function Total(values: seq<int>): int { if values == [] then 0 else values[0] + Total(values[1..]) }

  lemma {:induction false} TotalNonNegative(values: seq<int>)
    requires forall i :: 0 <= i < |values| ==> values[i] >= 0
    ensures Total(values) >= 0
  {
    if values != [] {
      TotalNonNegative(values[1..]);
    }
  }

  /** Writes are taken as long as their total leaves the counter at most at 2^64 - 2, and the one
      that goes beyond is not. */
  lemma {:induction false} WritesFit(c: Counter, values: seq<int>, more: int)
    requires Sound(c) && (forall i :: 0 <= i < |values| ==> values[i] >= 0) && c.value + Total(values) <= 0xffff_ffff_ffff_fffe
    requires 0 <= more <= UINT64_MAX
    ensures var (end, written, read) := Run(c, seq(|values|, i requires 0 <= i < |values| => Write(values[i])));
            && end.value == c.value + Total(values) && written == Total(values) && read == 0
            && Apply(end, Write(more)).1 == if end.value + more <= 0xffff_ffff_ffff_fffe then more else 0
    decreases |values|
  {
    var ops := seq(|values|, i requires 0 <= i < |values| => Write(values[i]));
    if values != [] {
      TotalNonNegative(values[1..]);
      var c1 := Apply(c, ops[0]).0;
      assert ops[1..] == seq(|values| - 1, i requires 0 <= i < |values| - 1 => Write(values[1..][i]));
      WritesFit(c1, values[1..], more);
    }
  }

  // ---- the descriptor ----

  class EventFD {
    var counter: int
    const semaphore: bool
    const event: KQueueEvent
    const kq: Kernel
    ghost var zeroes: bool

    ghost function View(): Counter
      reads this
    {
      Counter(counter, semaphore, zeroes)
    }

    /** A positive counter is triggered, and a trigger without one comes from a write of 0. */
    ghost predicate Valid()
      reads this, event, kq`userEvent
    {
      && Sound(View()) && event.Sound(kq)
      && (event.isTriggered <==> counter > 0 || zeroes)
    }

    constructor (kernel: Kernel, initial: int, isSemaphore: bool)
      requires 0 <= initial <= 0xffff_ffff
      modifies kernel`userEvent
      ensures Valid() && View() == Counter(initial, isSemaphore, false) && fresh(event) && kq == kernel
    {
      counter, semaphore, kq, zeroes := initial, isSemaphore, kernel, false;
      event := new KQueueEvent(kernel, initial > 0);
    }

    /** `eventfd_ctx_write`; when the trigger fails the value has been added all the same. */
    method Write(value: int, triggerFails: bool) returns (ec: Errno)
      requires Valid() && 0 <= value <= UINT64_MAX
      modifies this, event, kq`userEvent
      ensures ec == if value == UINT64_MAX then EINVAL
                    else if !Accepts(old(View()), value) then EAGAIN
                    else if triggerFails && !old(event.isTriggered) then SystemError
                    else Ok
      ensures View() == Apply(old(View()), Op.Write(value)).0
      ensures counter == old(counter) + if ec == Ok || ec == SystemError then value else 0
      ensures value == 0xffff_ffff_ffff_ffff <==> ec == EINVAL
      ensures ec == EAGAIN <==> ec != EINVAL && old(counter) + value > 0xffff_ffff_ffff_fffe
      ensures ec != SystemError ==> Valid()
      ensures ec == Ok ==> kq.Readable()
    {
      if value == UINT64_MAX {
        return EINVAL;
      }
      var newValue := counter + value;
      if newValue > UINT64_MAX || newValue > UINT64_MAX - 1 {
        return EAGAIN;
      }
      counter := newValue;
      zeroes := zeroes || value == 0;
      var ok := event.Trigger(kq, triggerFails);
      ec := if ok then Ok else SystemError;
    }

    /** `eventfd_ctx_read`. */
    method Read() returns (ec: Errno, value: int)
      requires Valid()
      modifies this, event, kq`userEvent, kq`signalEvents, kq`pending, kq`future
      ensures Valid()
      ensures ec == if old(counter) == 0 then EAGAIN else Ok
      ensures View() == Apply(old(View()), Op.Read).0
      ensures value == Apply(old(View()), Op.Read).2
      ensures ec == Ok && !semaphore ==> value == old(counter) && counter == 0
      ensures ec == Ok && semaphore ==> value == 1 && counter == old(counter) - 1
      ensures ec != Ok ==> counter == old(counter)
      ensures counter > 0 ==> kq.userEvent
      ensures ec == Ok && counter == 0 ==> !kq.Readable()
    {
      var current := counter;
      if current == 0 {
        return EAGAIN, 0;
      }
      var newValue := if semaphore then current - 1 else 0;
      if newValue == 0 && event.isTriggered {
        event.Clear(kq);
      }
      counter := newValue;
      zeroes := zeroes && newValue > 0;
      value := if semaphore then 1 else current;
      ec := Ok;
    }
  }
}
