/** A kqueue with a user event and signal filters, the process's pending signals, and the
    trigger flag that eventfd and signalfd keep beside their kqueue. */
module KQueueEvents {

  /** What happens outside between two system calls: pending signals are consumed by others,
      and signals arrive. */
  datatype Interlude = Interlude(consumed: set<int>, arrived: set<int>)

  lemma EmptyOrNot(s: set<int>)
    ensures s == {} || exists x :: x in s
  {
    if forall x :: x !in s {
      assert s == {};
    }
  }

  /** Some element of a set that is not empty. */
  method Pick(s: set<int>) returns (x: int)
    requires s != {}
    ensures x in s
  {
    EmptyOrNot(s);
    x :| x in s;
  }

  class Kernel {
    var pending: set<int>
    var userEvent: bool
    var signalEvents: set<int>
    var signalFilters: set<int>

    /** Whatever happens outside, in order; finitely much happens. */
    var future: seq<Interlude>

    /** The signals this descriptor has taken with sigwait. */
    ghost var taken: seq<int>

    /** Polling the kqueue for POLLIN would succeed. */
    predicate Readable()
      reads `userEvent, `signalEvents
    {
      userEvent || signalEvents != {}
    }

    ghost function Events(): nat
      reads `userEvent, `signalEvents
    {
      |signalEvents| + if userEvent then 1 else 0
    }

    constructor (pending: set<int>, future: seq<Interlude>)
      ensures this.pending == pending && this.future == future && taken == []
      ensures !userEvent && signalEvents == {} && signalFilters == {}
    {
      this.pending := pending;
      userEvent, signalEvents, signalFilters := false, {}, {};
      this.future := future;
      taken := [];
    }

    /** Time passes between two system calls: an arriving signal becomes pending and activates
        its filter, if there is one. */
    method Pass()
      modifies `pending, `signalEvents, `future
      ensures old(future) == [] ==> pending == old(pending) && signalEvents == old(signalEvents) && future == []
      ensures old(future) != [] ==>
                && future == old(future)[1..]
                && pending == old(pending) - old(future)[0].consumed + old(future)[0].arrived
                && signalEvents == old(signalEvents) + old(future)[0].arrived * signalFilters
    {
      if future != [] {
        pending := pending - future[0].consumed + future[0].arrived;
        signalEvents := signalEvents + future[0].arrived * signalFilters;
        future := future[1..];
      }
    }

    /** sigwait: blocks until one of the signals is pending and takes one of those; with
        nothing more to come it blocks for good. */
    method SigWait(sigs: set<int>) returns (got: bool, signo: int)
      modifies `pending, `signalEvents, `future, `taken
      ensures got ==> signo in sigs && signo !in pending && taken == old(taken) + [signo]
      ensures !got ==> taken == old(taken) && pending * sigs == {} && future == []
      ensures old(pending) * sigs != {} ==>
                && got && pending == old(pending) - {signo} && signo in old(pending)
                && signalEvents == old(signalEvents) && future == old(future)
      ensures got && old(pending) * sigs == {} && signalFilters == sigs ==> signalEvents != {}
    {
      while pending * sigs == {} && future != []
        invariant taken == old(taken)
        invariant old(pending) * sigs != {} ==> pending == old(pending) && signalEvents == old(signalEvents) && future == old(future)
        invariant old(pending) * sigs == {} && signalFilters == sigs && pending * sigs != {} ==> signalEvents != {}
        decreases |future|
      {
        Pass();
      }
      if pending * sigs == {} {
        return false, 0;
      }
      signo := Pick(pending * sigs);
      pending := pending - {signo};
      taken := taken + [signo];
      got := true;
    }

    /** One event handed over by kevent and, as all these filters have EV_CLEAR, reset.  A
        call that hands over several is several of these with nothing in between. */
    method TakeEvent() returns (any: bool)
      modifies `userEvent, `signalEvents
      ensures any <==> old(Readable())
      ensures any ==> Events() == old(Events()) - 1
      ensures !any ==> !Readable() && userEvent == old(userEvent) && signalEvents == old(signalEvents)
    {
      if userEvent {
        userEvent := false;
        return true;
      }
      if signalEvents == {} {
        return false;
      }
      var s := Pick(signalEvents);
      signalEvents := signalEvents - {s};
      any := true;
    }
  }

  class KQueueEvent {
    var isTriggered: bool

    /** A trigger that is recorded is really there. */
    predicate Sound(kq: Kernel)
      reads this, kq`userEvent
    {
      isTriggered ==> kq.userEvent
    }

    /** `kqueue_event_init`, together with the kevent call that registers what it asks for. */
    constructor (kq: Kernel, shouldTrigger: bool)
      modifies kq`userEvent
      ensures isTriggered == shouldTrigger && kq.userEvent == shouldTrigger && Sound(kq)
    {
      isTriggered := shouldTrigger;
      kq.userEvent := shouldTrigger;
    }

    /** `kqueue_event_trigger`; the system call can fail. */
    method Trigger(kq: Kernel, fails: bool) returns (ok: bool)
      requires Sound(kq)
      modifies this, kq`userEvent
      ensures Sound(kq) && (ok <==> old(isTriggered) || !fails)
      ensures ok ==> isTriggered && kq.userEvent
      ensures !ok ==> isTriggered == old(isTriggered) && kq.userEvent == old(kq.userEvent)
    {
      if isTriggered {
        return true;
      }
      if fails {
        return false;
      }
      kq.userEvent := true;
      isTriggered := true;
      ok := true;
    }

    /** `kqueue_event_clear`: drains the kqueue until a call finds nothing, signals arriving
        all the while, and then forgets the trigger. */
    method Clear(kq: Kernel)
      modifies this, kq`userEvent, kq`signalEvents, kq`pending, kq`future
      ensures !isTriggered && !kq.Readable()
      ensures old(kq.future) == [] ==> kq.pending == old(kq.pending) && kq.future == []
    {
      var any := true;
      while any
        invariant !any ==> !kq.Readable()
        invariant old(kq.future) == [] ==> kq.pending == old(kq.pending) && kq.future == []
        decreases any, |kq.future|, kq.Events()
      {
        kq.Pass();
        any := kq.TakeEvent();
      }
      isTriggered := false;
    }
  }
}
