/** The signal descriptor: a kqueue that must be readable whenever a watched signal is
    pending, although signals arrive between any two steps. */
module SignalFDs {
  import opened KQueueEvents

  datatype Outcome = Signal(signo: int) | EAGAIN | SystemError | Blocks

  class SignalFD {
    const kq: Kernel
    const sigs: set<int>
    const event: KQueueEvent

    /** What holds whenever the descriptor's mutex is free: no pending watched signal goes
        unnoticed, and a recorded trigger is really there. */
    predicate Valid()
      reads this, kq, event
    {
      && kq.signalFilters == sigs && event.Sound(kq)
      && (kq.pending * sigs != {} ==> kq.Readable())
    }

    /** Whatever happens while nobody holds the mutex keeps it so. */
    method Idle()
      requires Valid()
      modifies kq`pending, kq`signalEvents, kq`future
      ensures Valid() && (old(kq.Readable()) ==> kq.Readable())
    {
      kq.Pass();
    }

    /** `signalfd_ctx_init`: registers the filters, then looks for signals that were pending
        before.  With a failing system call there is no descriptor (`ok` is false). */
    constructor (kernel: Kernel, watched: set<int>, checkFails: bool, triggerFails: bool)
      requires kernel.signalEvents == {} && kernel.signalFilters == {}
      modifies kernel
      ensures kq == kernel && sigs == watched && fresh(event)
      ensures kernel.taken == old(kernel.taken)
      ensures !checkFails && !triggerFails ==> Valid()
    {
      kq, sigs := kernel, watched;
      event := new KQueueEvent(kernel, false);
      new;
      kq.Pass();
      kq.signalFilters := sigs;
      kq.Pass();
      var hasPending := kq.pending * sigs != {};
      if checkFails {
        return;
      }
      kq.Pass();
      if hasPending {
        var ok := event.Trigger(kq, triggerFails);
      }
    }

    /** `signalfd_ctx_clear_signal`: true when a watched signal may be pending. */
    method ClearSignal(wasTriggered: bool, check1Fails: bool, check2Fails: bool) returns (pending: bool)
      requires kq.signalFilters == sigs && event.Sound(kq) && (wasTriggered ==> Valid())
      modifies kq`userEvent, kq`signalEvents, kq`pending, kq`future, event
      ensures Valid()
      ensures !pending && kq.pending * sigs != {} ==> kq.signalEvents != {}
      ensures old(kq.future) == [] && !check1Fails && !check2Fails ==>
                && kq.pending == old(kq.pending) && (pending <==> kq.pending * sigs != {})
                && (kq.Readable() <==> pending)
    {
      kq.Pass();
      if wasTriggered {
        var hasPending := kq.pending * sigs != {};
        if check1Fails || hasPending {
          return true;
        }
      }
      event.Clear(kq);
      kq.Pass();
      var hasPending := kq.pending * sigs != {};
      kq.Pass();
      if check2Fails || hasPending {
        var ok := event.Trigger(kq, false);
        return true;
      }
      pending := false;
    }

    /** `signalfd_ctx_read`: takes one watched signal, if one is pending, and leaves the
        descriptor readable if that was not the last. */
    method Read(checkFails: bool, waitFails: bool, check1Fails: bool, check2Fails: bool) returns (r: Outcome)
      requires Valid()
      modifies kq, event
      ensures kq.signalFilters == sigs
      ensures r != Blocks ==> Valid()
      ensures kq.taken == if r.Signal? then old(kq.taken) + [r.signo] else old(kq.taken)
      ensures r.Signal? ==> r.signo in sigs
      ensures r == Blocks ==> kq.pending * sigs == {} && kq.future == []
      ensures old(kq.future) == [] && !checkFails && !waitFails && !check1Fails && !check2Fails ==>
                && (r == EAGAIN <==> old(kq.pending) * sigs == {}) && (r == EAGAIN || r.Signal?)
                && kq.pending == (if r.Signal? then old(kq.pending) - {r.signo} else old(kq.pending))
                && (kq.Readable() <==> kq.pending * sigs != {})
    {
      kq.Pass();
      if checkFails {
        return SystemError;
      }
      if kq.pending * sigs == {} {
        r := EAGAIN;
      } else {
        kq.Pass();
        if waitFails {
          return SystemError;
        }
        var got, signo := kq.SigWait(sigs);
        if !got {
          return Blocks;
        }
        r := Signal(signo);
      }
      var more := ClearSignal(false, check1Fails, check2Fails);
    }

    /** `signalfd_ctx_poll`: with `wantEvents` the answer, true for POLLIN, is for a caller
        that found the kqueue readable; without, the call refreshes the kqueue before a poll. */
    method Poll(wantEvents: bool, check1Fails: bool, check2Fails: bool) returns (pollIn: bool)
      requires Valid()
      modifies kq`userEvent, kq`signalEvents, kq`pending, kq`future, event
      ensures Valid()
      ensures wantEvents && !pollIn && kq.pending * sigs != {} ==> kq.signalEvents != {}
      ensures !wantEvents ==> !pollIn
      ensures old(kq.future) == [] && !check1Fails && !check2Fails ==>
                && kq.pending == old(kq.pending) && (kq.Readable() <==> kq.pending * sigs != {})
                && (pollIn <==> wantEvents && kq.pending * sigs != {})
    {
      var pending := ClearSignal(wantEvents, check1Fails, check2Fails);
      pollIn := wantEvents && pending;
    }

    /** Any sequence of calls by any callers, signals arriving at any time: whenever the mutex
        is free, no pending watched signal goes unnoticed. */
    method Run(calls: seq<Call>) returns (blocked: bool)
      requires Valid()
      modifies kq, event
      ensures !blocked ==> Valid()
      ensures blocked ==> kq.pending * sigs == {} && kq.future == []
      ensures forall s :: s in kq.taken && s !in old(kq.taken) ==> s in sigs
    {
      for i := 0 to |calls|
        invariant Valid()
        invariant forall s :: s in kq.taken && s !in old(kq.taken) ==> s in sigs
      {
        match calls[i] {
          case ReadCall(e0, e1, e2, e3) =>
            var r := Read(e0, e1, e2, e3);
            if r == Blocks {
              return true;
            }
          case PollCall(wantEvents, e1, e2) =>
            var pollIn := Poll(wantEvents, e1, e2);
          case Wait =>
            Idle();
        }
      }
      blocked := false;
    }
  }

  /** The calls of a run, with the system calls that fail in them. */
  datatype Call =
    | ReadCall(checkFails: bool, waitFails: bool, check1Fails: bool, check2Fails: bool)
    | PollCall(wantEvents: bool, check1Fails: bool, check2Fails: bool)
    | Wait
}
