/** The files registered with an epoll descriptor, what a kqueue has of them, and what the
    descriptor's operations do to them. */
module EpollNodes {
  import opened Collections
  import opened EpollFilters

  const INT_MAX: int := 0x7fff_ffff

  datatype Errno = OK | EINVAL | ENOENT | EEXIST | ENOMEM | ENODEV | EPIPE | Other(code: int)

  type Failure = e: Errno | e != OK witness EINVAL

  /** What epoll_ctl is given: the bits of `events`, its two flags, whether it has bits that are
      not supported, and `data`. */
  datatype Request = Request(bits: Mask, edge: bool, oneshot: bool, unsupported: bool, data: int)
  {
    function Asks(): Wanted { Wanted(IN in bits, PRI in bits, OUT in bits, RDHUP in bits) }

    /** What is kept of that for a file. */
    function AsksOf(kind: Kind): Wanted { if kind.Socket? then Asks() else Asks().(halfHangUp := false, urgent := false) }
  }

  /** What is kept of the caller's bits for a file. */
  function Askable(kind: Kind): Mask { if kind.Socket? then {IN, PRI, OUT, RDHUP} else {IN, OUT} }

  /** What is wanted of a file is what its caller has asked for, as far as the file supports it. */
  lemma AsksMeans(r: Request, kind: Kind)
    ensures Bits(r.AsksOf(kind)) == r.bits * Askable(kind)
  {
  }

  /** So is what is due, bit by bit, in terms of what the caller has asked for: the readable and
      the writable end, a closed one, both of them, an error, and out-of-band data. */
  lemma DueMeans(r: Request, kind: Kind, c: Condition, evs: seq<Event>)
    requires kind.Socket? || kind.Ordinary?
    ensures var due := ReportDue(kind, r.AsksOf(kind), c, evs);
            && (IN in due <==> IN in r.bits && (c.readable || c.eof.read))
            && (OUT in due <==> OUT in r.bits && (c.writable || c.eof.write))
            && (RDHUP in due <==> RDHUP in r.bits && kind.Socket? && c.eof.read)
            && (HUP in due <==> c.eof.read && c.eof.write)
            && (ERR in due <==> exists k :: 0 <= k < |evs| && evs[k].filter != Except && (evs[k].error || (evs[k].eof && evs[k].fflags)))
            && (PRI in due <==> PRI in r.bits && kind.Socket? && exists k :: 0 <= k < |evs| && evs[k].filter == Except && evs[k].urgent)
  {
    AsksMeans(r, kind);
    StateMeans(r, kind, c);
    assert Erring(evs) <==> exists k :: 0 <= k < |evs| && evs[k].filter != Except && (evs[k].error || (evs[k].eof && evs[k].fflags)) by {
      assert forall k :: 0 <= k < |evs| ==> (Errs(evs[k]) <==> evs[k].filter != Except && (evs[k].error || (evs[k].eof && evs[k].fflags)));
    }
  }

  /** What is due of the state alone. */
  lemma StateMeans(r: Request, kind: Kind, c: Condition)
    requires kind.Socket? || kind.Ordinary?
    ensures var due := DueOf(kind, c) * (r.bits * Askable(kind) + {HUP});
            && (IN in due <==> IN in r.bits && (c.readable || c.eof.read))
            && (OUT in due <==> OUT in r.bits && (c.writable || c.eof.write))
            && (RDHUP in due <==> RDHUP in r.bits && kind.Socket? && c.eof.read)
            && (HUP in due <==> c.eof.read && c.eof.write)
            && ERR !in due && PRI !in due
  {
  }

  datatype PollFd = PollFd(fd: int, events: Wanted, revents: Mask, invalid: bool)

  /** `epoll_data_t`: the event loop keeps a pointer to the node of a file where the caller's
      value goes later. */
  datatype Data = Pointer(fd: int) | User(value: int)

  datatype EpollEvent = EpollEvent(events: Mask, data: Data)

  // ---- registered files ----

  /** `hasDesc` says that a kqueue is that of a descriptor of this library. */
  datatype Node = Node(fd: int, kind: Kind, hasDesc: bool, data: int, isRegistered: bool, has: Flags, got: Flags,
                       eof: Eof, events: Wanted, revents: Mask, edge: bool, oneshot: bool, onList: bool)
  {
    function Interest(): Interest { EpollFilters.Interest(kind, events, edge, eof) }

    function Progress(): Progress { EpollFilters.Progress(eof, revents, got) }

    function Needs(): Needed { NeededFilters(Interest()) }

    /** Only sockets support EPOLLRDHUP and EPOLLPRI. */
    function KeptEvents(): Wanted {
      if kind.Socket? then events else events.(halfHangUp := false, urgent := false)
    }

    /** What holds of a node by itself, but for the bits that only sockets keep. */
    ghost predicate Ready() {
      && (oneshot ==> edge)
      && (kind.KQueue? ==> eof == OPEN && !has.write)
      && (kind.Fifo? ==> (kind.readable || kind.writable) && (has.read ==> kind.readable) && (has.write ==> kind.writable))
      && (kind.PollOnly? ==> has == NO_FLAGS)
      && (has.except ==> kind.Socket?)
      && (onList ==> kind.PollOnly?)
    }

    /** What a node has to report is wanted, or an error or hang-up. */
    ghost predicate Reporting() {
      revents <= Reportable(Bits(events)) && (kind.KQueue? && revents != {} ==> got.read)
    }

    ghost predicate Sound() { Ready() && (kind.Socket? || OnlyInOut(events)) }

    /** A FIFO without a reader: its write filter was refused, and an event of its own, once
        triggered, retries. */
    ghost predicate Waiting() { kind.Fifo? && has == NO_FLAGS && Needs().write != Off }

    /** Its filters follow from what is wanted of it and the ends known to be closed. */
    predicate Filtered() { kind.Socket? || kind.Ordinary? || kind.KQueue? }

    predicate Leveled() { !edge && Filtered() }

    /** Its read filter, if it is a FIFO, tells of its end. */
    function Reading(): bool { kind.Fifo? && has.read }

    /** A FIFO has a read filter, when it has any, whether its ends are open or not. */
    predicate Reads() { kind.Fifo? && kind.readable && (events.input || !kind.writable || events == NO_EVENTS) }

    /** `registered_fds_node_update_flags_from_epoll_event` */
    function Updated(r: Request): Node {
      this.(events := r.Asks(), data := r.data, edge := r.edge || r.oneshot, oneshot := r.oneshot)
    }
  }

  // ---- the kqueue ----

  /** Events of a file's filters, of the user event of its node, and of the one that makes
      pollers come back. */
  datatype KEvent = File(fd: int, ev: Event) | Self(fd: int) | Repoll

  datatype Key = FileKey(fd: int, filter: Filter) | SelfKey(fd: int) | RepollKey

  function KeyOf(e: KEvent): Key {
    match e
    case File(fd, ev) => FileKey(fd, ev.filter)
    case Self(fd) => SelfKey(fd)
    case Repoll => RepollKey
  }

  datatype PollReply = Failed | Invalid | Ready(bits: Mask)

  /** What a kqueue has of a file: how its read and write filters were added, if they are
      there, and the user event of its node, with whether that is active. */
  datatype Watched = Watched(read: Mode, write: Mode, self: bool, active: bool)

  const UNWATCHED := Watched(Off, Off, false, false)

  /** The answer to a call that adds filters. */
  datatype Reply = Refused(ec: Errno) | Receipts(read: Errno, write: Errno, except: Errno)
  {
    function Of(f: Filter): Errno
      requires Receipts?
    {
      match f
      case Read => read
      case Write => write
      case Except => except
    }
  }

  predicate Changed(n: Needed, r: Reply) {
    r.Receipts? && ((n.read != Off && r.read == OK) || (n.write != Off && r.write == OK))
  }

  function After(w: Watched, n: Needed, r: Reply): Watched
    requires r.Receipts?
  {
    w.(read := if n.read != Off && r.read == OK then n.read else w.read,
       write := if n.write != Off && r.write == OK then n.write else w.write)
  }

  /** The read and write filters are those the node needs. */
  ghost predicate Exact(n: Node, w: Watched) { w.read == n.Needs().read && w.write == n.Needs().write }

  ghost predicate NoFilters(w: Watched) { w.read == Off && w.write == Off }

  /** Files are told apart rightly once they have been registered. */
  ghost predicate Settled(n: Node, pollOnly: bool) { n.kind.PollOnly? <==> pollOnly }

  /** What the flags of a node say about the kqueue. */
  ghost predicate Queued(n: Node, w: Watched) {
    && (n.has.read <==> w.read != Off) && (n.has.write <==> w.write != Off) && (n.onList ==> w.self)
    && (n.kind.Fifo? ==>
          && (w.active ==> n.Waiting()) && (w.self ==> !n.Reads())
          && (n.has.read || n.has.write ==> (n.has.read <==> n.Reads())))
  }

  /** A FIFO without a reader is known closed; unless its read filter tells, an event of its own
      is active. */
  ghost predicate Readerless(n: Node, w: Watched) {
    && n.eof == CLOSED && n.Needs().write != Off && w.write == Off && (w.read != Off <==> n.Reads())
    && (!n.Reads() ==> w.self && w.active)
  }

  /** Filters and user events are for nodes of different kinds. */
  ghost predicate May(n: Node, w: Watched) {
    (NoFilters(w) || !n.kind.PollOnly?) && (w.self ==> n.kind.PollOnly? || n.kind.Fifo?) && (w.active ==> w.self)
  }

  /** The kqueue knows nothing of the node. */
  ghost predicate Absent(n: Node, w: Watched) { w == UNWATCHED && !n.onList && n.has == NO_FLAGS }

  ghost predicate Good(n: Node, w: Watched, pollOnly: bool, drifted: bool) {
    && n.Sound() && n.isRegistered && Queued(n, w) && Settled(n, pollOnly)
    && (n.Leveled() && !drifted ==> Exact(n, w) || NoFilters(w))
    && (n.kind.PollOnly? && !n.oneshot ==> n.onList)
  }

  /** The kqueue, and whatever else the system may answer: the n-th call that can fail gets the
      n-th answer, and finitely many batches of events are delivered. */
  class Kernel {
    var queue: map<int, Watched>
    var repoll: bool
    var repollActive: bool
    /** The files that no filter can watch. */
    var pollOnly: set<int>
    var deliveries: seq<seq<KEvent>>
    /** How many calls that can fail have been made, and how many files have been polled. */
    var calls: nat
    var polled: nat
    const answers: nat -> Errno
    const receipts: (nat, Filter) -> Errno
    const polls: nat -> PollReply

    constructor (deliveries: seq<seq<KEvent>>, answers: nat -> Errno, receipts: (nat, Filter) -> Errno, polls: nat -> PollReply)
      ensures queue == map[] && !repoll && !repollActive
      ensures this.deliveries == deliveries && this.answers == answers && this.receipts == receipts && this.polls == polls
    {
      queue, repoll, repollActive, pollOnly := map[], false, false, {};
      this.deliveries, this.answers, this.receipts, this.polls := deliveries, answers, receipts, polls;
      calls, polled := 0, 0;
    }

    function At(fd: int): Watched
      reads `queue
    {
      AtIn(queue, fd)
    }

    // -- failing --

    /** The n-th call succeeds, and gives no receipt that is an error, but perhaps for `pipes`. */
    ghost predicate Fine(n: nat, pardon: Pardon) {
      && answers(n) == OK && receipts(n, Read) == OK && receipts(n, Except) == OK
      && (receipts(n, Write) == OK || (pardon == Pipes && receipts(n, Write) == EPIPE))
    }

    /** None of the calls from the `a`-th to before the `b`-th fails. */
    ghost predicate Clean(a: nat, b: nat) {
      forall n {:trigger Fine(n, Nothing)} {:trigger answers(n)} :: a <= n < b ==> Fine(n, Nothing)
    }

    /** The same for all but what is pardoned. */
    ghost predicate Smooth(a: nat, b: nat, pardon: Pardon) { forall n :: a <= n < b ==> Fine(n, pardon) }

    /** One of these calls refuses a write filter for want of a reader. */
    ghost predicate Piped(a: nat, b: nat) { exists n :: a <= n < b && receipts(n, Write) == EPIPE }

    /** The receipt that the n-th call gives for a filter of `fd`: files that only poll can watch,
        and only those, answer ENODEV. */
    function ReceiptOf(n: nat, f: Filter, fd: int): Errno
      reads `pollOnly
    {
      if fd in pollOnly then ENODEV else if receipts(n, f) == ENODEV then EINVAL else receipts(n, f)
    }

    /** A receipt that is no error for such a file. */
    ghost predicate Pardoned(e: Errno, f: Filter, fd: int, pardon: Pardon)
      reads `pollOnly
    {
      (pardon == Devices && fd in pollOnly) || (pardon == Pipes && f == Write && e == EPIPE)
    }

    /** `e` is the n-th answer, or a receipt that this gives and that is not pardoned. */
    ghost predicate Gives(n: nat, e: Errno, fd: int, pardon: Pardon)
      reads `pollOnly
    {
      e == answers(n) || exists f :: e == ReceiptOf(n, f, fd) && !Pardoned(e, f, fd, pardon)
    }

    /** An operation on `fd` that makes the calls from `a` to before `b` and ends with `e` does
        not fail of itself: one of its calls gave that error. */
    ghost predicate Blamed(e: Errno, a: nat, b: nat, fd: int, pardon: Pardon)
      reads `pollOnly
    {
      a <= b && (e == OK || exists n :: a <= n < b && Gives(n, e, fd, pardon))
    }

    /** The receipts are those of the a-th call. */
    ghost predicate Answered(r: Reply, a: nat, b: nat, fd: int)
      reads `pollOnly
    {
      && a < b && (r.Refused? ==> r.ec == answers(a))
      && (r.Receipts? ==> answers(a) == OK && forall f :: r.Of(f) == OK || r.Of(f) == ReceiptOf(a, f, fd))
    }

    lemma FineReceipts(n: nat, fd: int, pardon: Pardon)
      requires Fine(n, pardon)
      ensures answers(n) == OK
      ensures forall f :: ReceiptOf(n, f, fd) != OK ==> fd in pollOnly || Pardoned(ReceiptOf(n, f, fd), f, fd, pardon)
    {
      forall f: Filter ensures receipts(n, f) == OK || (f == Write && pardon == Pipes && receipts(n, f) == EPIPE) {
        match f
        case Read =>
        case Write =>
        case Except =>
      }
    }

    /** Where no call fails the operation succeeds. */
    lemma CleanSucceeds(e: Errno, a: nat, b: nat, fd: int, pardon: Pardon)
      requires Blamed(e, a, b, fd, pardon)
      ensures Smooth(a, b, pardon) && (pardon == Devices || fd !in pollOnly) ==> e == OK
      ensures Clean(a, b) ==> Smooth(a, b, pardon) && !Piped(a, b)
    {
      if Smooth(a, b, pardon) && e != OK && (pardon == Devices || fd !in pollOnly) {
        var n :| a <= n < b && Gives(n, e, fd, pardon);
        FineReceipts(n, fd, pardon);
      }
      if Clean(a, b) {
        forall n | a <= n < b ensures Fine(n, pardon) && receipts(n, Write) == OK {
          assert Fine(n, Nothing);
        }
      }
    }

    lemma CleanParts(a: nat, b: nat, c: nat)
      requires a <= b <= c
      ensures Clean(a, c) ==> Clean(a, b) && Clean(b, c)
    {
    }

    lemma BlamedWider(e: Errno, a: nat, b: nat, c: nat, d: nat, fd: int, pardon: Pardon)
      requires a <= b && c <= d && Blamed(e, b, c, fd, pardon)
      ensures Blamed(e, a, d, fd, pardon)
    {
    }

    lemma ReceiptBlamed(r: Reply, f: Filter, a: nat, b: nat, fd: int, pardon: Pardon)
      requires Answered(r, a, b, fd) && r.Receipts? && !Pardoned(r.Of(f), f, fd, pardon)
      ensures Blamed(r.Of(f), a, b, fd, pardon)
    {
      if r.Of(f) != OK {
        assert r.Of(f) == ReceiptOf(a, f, fd);
        assert Gives(a, r.Of(f), fd, pardon);
      }
    }

    lemma RefusalBlamed(r: Reply, a: nat, b: nat, fd: int, pardon: Pardon)
      requires Answered(r, a, b, fd) && r.Refused?
      ensures Blamed(r.ec, a, b, fd, pardon)
    {
      assert Gives(a, r.ec, fd, pardon);
    }

    /** The last of the calls since the `a`-th gave the error. */
    ghost predicate LastFailed(e: Errno, a: nat)
      reads `calls
    {
      calls > a && e == answers(calls - 1)
    }

    /** A call that may fail. */
    method Call() returns (e: Errno)
      modifies `calls
      ensures e == answers(old(calls)) && calls == old(calls) + 1
    {
      e := answers(calls);
      calls := calls + 1;
    }

    // -- polling --

    /** What poll would say of a file if it were asked about everything. */
    function Answer(n: nat): PollReply { polls(n) }

    /** poll on one file reports only what was asked for, or an error. */
    function ReplyAt(n: nat, events: Wanted): PollReply {
      if polls(n).Ready? then Ready(polls(n).bits * Reportable(Bits(events))) else polls(n)
    }

    method PollOne(events: Wanted) returns (r: PollReply)
      modifies `polled
      ensures r == ReplyAt(old(polled), events) && polled == old(polled) + 1
    {
      r := polls(polled);
      polled := polled + 1;
      if r.Ready? {
        r := Ready(r.bits * Reportable(Bits(events)));
      }
    }

    /** What a poll function of this library says. */
    predicate Pending(n: nat) { polls(n).Ready? }

    method PollDesc() returns (pending: bool)
      modifies `polled
      ensures pending == Pending(old(polled)) && polled == old(polled) + 1
    {
      pending := polls(polled).Ready?;
      polled := polled + 1;
    }

    // -- filters --

    /** Adds the filters that are not off; the answer to the call as a whole, and to each. */
    method Add(fd: int, needed: Needed) returns (r: Reply)
      modifies `calls, `queue
      ensures queue == if Changed(needed, r) then old(queue)[fd := After(old(At(fd)), needed, r)] else old(queue)
      ensures (r.Refused? ==> r.ec != OK) && Answered(r, old(calls), calls, fd)
      ensures r.Receipts? ==> forall f :: ModeOf(needed, f) == Off ==> r.Of(f) == OK
      ensures r.Receipts? ==> forall f :: ModeOf(needed, f) != Off ==> (r.Of(f) == ENODEV <==> fd in pollOnly)
    {
      var call := Call();
      if call != OK {
        return Refused(call);
      }
      ghost var n := old(calls);
      r := Receipts(if needed.read == Off then OK else ReceiptOf(calls - 1, Read, fd),
                    if needed.write == Off then OK else ReceiptOf(calls - 1, Write, fd),
                    if needed.except == Off then OK else ReceiptOf(calls - 1, Except, fd));
      assert forall f :: r.Of(f) == OK || r.Of(f) == ReceiptOf(n, f, fd);
      if Changed(needed, r) {
        queue := queue[fd := After(At(fd), needed, r)];
      }
    }

    /** `registered_fds_node_add_self_trigger`; adding it again keeps it active. */
    method AddSelf(fd: int) returns (e: Errno)
      modifies `calls, `queue
      ensures e == answers(old(calls)) && calls == old(calls) + 1
      ensures queue == if e == OK then old(queue)[fd := old(At(fd)).(self := true)] else old(queue)
    {
      e := Call();
      if e == OK {
        queue := queue[fd := At(fd).(self := true)];
      }
    }

    /** `registered_fds_node_trigger_self` */
    method TriggerSelf(fd: int)
      modifies `queue
      ensures queue == if old(At(fd)).self then old(queue)[fd := old(At(fd)).(active := true)] else old(queue)
    {
      if At(fd).self {
        queue := queue[fd := At(fd).(active := true)];
      }
    }

    /** What delivering a batch does to user events, which have EV_CLEAR. */
    method ResetUserEvents(batch: seq<KEvent>)
      modifies `queue, `repollActive
      ensures queue.Keys == old(queue).Keys
      ensures forall fd :: At(fd) == if Self(fd) in batch then old(At(fd)).(active := false) else old(At(fd))
      ensures repollActive == (old(repollActive) && Repoll !in batch)
    {
      queue := map fd | fd in queue :: if Self(fd) in batch then queue[fd].(active := false) else queue[fd];
      repollActive := repollActive && Repoll !in batch;
    }

    method DeleteSelf(fd: int)
      modifies `queue
      ensures queue == old(queue)[fd := old(At(fd)).(self := false, active := false)]
    {
      queue := queue[fd := At(fd).(self := false, active := false)];
    }

    method DeleteAll(fd: int)
      modifies `queue
      ensures queue == old(queue)[fd := UNWATCHED]
    {
      queue := queue[fd := UNWATCHED];
    }

    method AddRepoll() returns (e: Errno)
      modifies `calls, `repoll
      ensures e == answers(old(calls)) && calls == old(calls) + 1
      ensures repoll == (old(repoll) || e == OK)
    {
      e := Call();
      repoll := repoll || e == OK;
    }
  }

  // ---- registering ----

  /** Receipts that are no errors: that no filter suits a device, that a FIFO has no reader. */
  datatype Pardon = Nothing | Devices | Pipes

  function PardonOf(kind: Kind): Pardon {
    match kind
    case Ordinary => Devices
    case PollOnly => Devices
    case Fifo(_, _) => Pipes
    case _ => Nothing
  }

  datatype Op = Add | Del | Mod | Unsupported

  /** What fstat, and for FIFOs ioctl and fcntl, say of a file. */
  datatype Stat = NoFile(ec: Failure) | KQueueFile | FifoFile(mode: FileMode) | SocketFile | OtherFile

  datatype FileMode = ReadOnly | WriteOnly | ReadWrite | BadMode | Unknown(ec: Failure)

  function KindOf(stat: Stat): Kind {
    match stat
    case KQueueFile => KQueue
    case FifoFile(mode) => Fifo(mode.ReadOnly? || mode.ReadWrite?, mode.WriteOnly? || mode.ReadWrite?)
    case SocketFile => Socket
    case _ => Ordinary
  }

  function NewNode(fd: int, kind: Kind, hasDesc: bool): Node {
    Node(fd, kind, hasDesc, 0, false, NO_FLAGS, NO_FLAGS, OPEN, NO_EVENTS, {}, false, false, false)
  }

  /** The node is as the caller asked. */
  ghost predicate Follows(n: Node, r: Request) {
    && n.data == r.data && n.edge == (r.edge || r.oneshot) && n.oneshot == r.oneshot
    && n.events == r.AsksOf(n.kind)
  }

  /** A node that was asked for something else, and is otherwise the same file. */
  ghost predicate Modified(n: Node, m: Node, r: Request) {
    Follows(m, r) && Reregistered(n.Updated(r), m) && m.kind == n.kind
  }

  /** A new node for what a file turned out to be. */
  ghost predicate Fulfils(n: Node, r: Request, stat: Stat, hasDesc: bool) {
    && Follows(n, r) && n.isRegistered && n.hasDesc == hasDesc && n.got == NO_FLAGS
    && (stat.KQueueFile? ==> n.kind.KQueue?) && (stat.SocketFile? ==> n.kind.Socket?)
    && (stat.FifoFile? ==> n.kind == Fifo(stat.mode in {ReadOnly, ReadWrite}, stat.mode in {WriteOnly, ReadWrite}))
    && (stat.OtherFile? ==> n.kind.Ordinary? || n.kind.PollOnly?)
    && (n.kind.Fifo? || n.eof == OPEN)
  }

  /** What a successful registration leaves of a node in the kqueue. */
  ghost predicate Done(n: Node, w: Watched, pollOnly: bool) {
    && Queued(n, w) && Settled(n, pollOnly) && (n.Filtered() ==> Exact(n, w))
    && (n.kind.Fifo? ==> Exact(n, w) || Readerless(n, w)) && (n.kind.PollOnly? ==> n.onList)
  }

  /** What registering leaves of a node as it was. */
  ghost predicate Reregistered(n: Node, m: Node) {
    && m == n.(kind := m.kind, has := m.has, eof := m.eof, events := n.KeptEvents(), onList := m.onList)
    && (m.kind == n.kind || (n.kind.Ordinary? && m.kind.PollOnly?))
    && (m.eof != n.eof ==> n.kind.Fifo?)
  }

  lemma FlaggedSound(n: Node, needed: Needed)
    requires n.Sound() && needed == n.Needs() && !n.kind.PollOnly?
    ensures var m := n.(has := Flags(needed.read != Off, needed.write != Off, needed.except != Off));
            m.Sound() && m.Needs() == needed && (needed.read != Off || needed.write != Off)
    ensures n.kind.Fifo? ==> (n.Reads() <==> needed.read != Off)
    ensures ModeOf(needed, Read) == needed.read && ModeOf(needed, Write) == needed.write
  {
    NeverEmpty(n.Interest());
  }

  lemma WriterOnly(n: Node)
    requires n.Sound() && n.Waiting()
    ensures n.(has := Flags(false, true, false)).Sound() && (n.Reads() <==> n.Needs().read != Off)
    ensures forall r :: n.(revents := r).Sound() && n.(revents := r).Waiting()
  {
    NeverEmpty(n.Interest());
  }

  // ---- feeding events ----

  /** An event of a filter that the file can have. */
  predicate Feedable(n: Node, ev: Event) {
    && !n.kind.PollOnly?
    && (n.kind.KQueue? ==> ev.filter == Read && !ev.eof)
    && (n.kind.Fifo? ==> (ev.filter == Read ==> n.kind.readable) && (ev.filter == Write ==> n.kind.writable))
    && (ev.filter == Except ==> n.kind.Socket?)
  }

  /** The node after an event; `pending` is what the poll function of a kqueue of this library
      says. */
  function Feed(n: Node, ev: Event, pending: bool): Node {
    var p := Fed(n.kind, Bits(n.events), n.Reading(), n.Progress(), ev);
    n.(eof := p.eof, got := p.got,
       revents := if n.kind.KQueue? && n.hasDesc then If(pending, {IN}) * Reportable(Bits(n.events)) else p.revents)
  }

  /** `m` is `n` after an event, and has in it what a node may have. */
  ghost predicate FedTo(n: Node, m: Node, ev: Event, pending: bool) {
    m == Feed(n, ev, pending) && m.Reporting() && (m.kind.KQueue? ==> m.eof == OPEN)
  }

  method ReadyBits(ev: Event) returns (bits: Mask)
    ensures bits == ReadyBit(ev)
  {
    bits := {};
    if ev.filter == Read {
      bits := bits + {IN};
    } else if ev.filter == Write {
      bits := bits + {OUT};
    } else if ev.urgent {
      bits := bits + {PRI};
    }
  }

  method Report(kind: Kind, eof: Eof, ev: Event) returns (bits: Mask)
    ensures bits == Reported(kind, eof, ev)
  {
    bits := ReadyBits(ev);
    if ev.filter != Except {
      if ev.error {
        bits := bits + {ERR};
      }
      if ev.eof && ev.fflags {
        bits := bits + {ERR};
      }
      if eof != OPEN {
        bits := AddEnds(kind, eof, ev, bits);
      }
    }
  }

  /** What the known ends of a file add to a report. */
  method AddEnds(kind: Kind, eof: Eof, ev: Event, ready: Mask) returns (bits: Mask)
    requires eof != OPEN && ev.filter != Except
    ensures bits == (if Spent(kind, eof, ev) then ready - ReadyBit(ev) else ready) + EofBits(kind, eof, ev.filter)
  {
    bits := ready;
    if kind.Fifo? {
      if ev.filter == Read {
        if ev.data == 0 {
          bits := bits - {IN};
        }
        bits := bits + {HUP};
      } else {
        if ev.data < PIPE_BUF {
          bits := bits - {OUT};
        }
        bits := bits + {ERR};
      }
    } else if kind.Socket? {
      var ends: Mask := {};
      if eof.read {
        ends := ends + {IN, RDHUP};
      }
      if eof.write {
        ends := ends + {OUT};
      }
      if eof == CLOSED {
        ends := ends + {HUP};
      }
      bits := bits + ends;
    } else {
      bits := bits + {HUP};
    }
  }

  /** What poll's answer on one file is reported as. */
  function PollBits(reply: PollReply): Mask {
    match reply
    case Failed => {ERR}
    case Invalid => {}
    case Ready(bits) => bits
  }

  /** The FIFO has its write filter, or reports an error and, if level-triggered, will retry. */
  ghost predicate Retried(n: Node, m: Node, v: Watched) {
    if m.has.write then v.write == n.Needs().write && v.write != Off && m == n.(has := Flags(false, true, false))
    else m == n.(revents := {ERR, OUT} * Reportable(Bits(n.events))) && (!n.edge ==> v.active)
  }

  function SocketEof(eof: Eof, ev: Event): Eof {
    if ev.filter == Read then Eof(ev.eof, eof.write) else Eof(eof.read, ev.eof)
  }

  // ---- the event loop ----

  /** An event leaves of a node what the caller set. */
  ghost predicate Kept(n: Node, m: Node) {
    m == n.(has := m.has, got := m.got, eof := m.eof, revents := m.revents)
  }

  /** What the event loop makes of an event of one of the file's filters: as long as other
      filters are not needed, that is all. */
  ghost predicate Processed(n: Node, m: Node, ev: Event, pending: bool) {
    && Kept(n, m) && m.Reporting() && (n.revents != {} && !n.kind.KQueue? ==> m.revents != {})
    && var f := Feed(n, ev, pending);
       Refiltered(f, m) && (f.Needs().Filters() == n.Needs().Filters() ==> m == f)
  }

  /** An event of a FIFO that has filters: where no call fails it keeps them. */
  ghost predicate FifoFed(n: Node, m: Node, ev: Event) {
    n.kind.Fifo? && (n.has.read || n.has.write) ==>
      && m.Progress() == Fed(n.kind, Bits(n.events), n.Reading(), n.Progress(), ev)
      && m.has.read == n.has.read && (m.has.read || m.has.write)
  }

  /** A FIFO that has filters keeps them. */
  ghost predicate FifoStays(n: Node, m: Node) {
    n.kind.Fifo? && (n.has.read || n.has.write) ==>
      m.eof == n.eof && m.has.read == n.has.read && (m.has.read || m.has.write)
  }

  lemma FifoExact(n: Node, m: Node, w: Watched)
    requires n.kind == m.kind && n.events == m.events && Queued(m, w) && m.Sound()
    requires n.kind.Fifo? && (n.has.read || n.has.write) ==> (n.has.read <==> n.Reads())
    ensures m.eof == n.eof && Exact(m, w) ==> FifoStays(n, m)
  {
    NeverEmpty(m.Interest());
  }

  /** What following the ends of a file changes in its node. */
  ghost predicate Refiltered(n: Node, m: Node) {
    m == n.(has := m.has, eof := m.eof) && (m.eof != n.eof ==> n.kind.Fifo?)
  }

  /** Filters that agree with the ends of a level-triggered file go on doing so, and a file that is
      watched for more than one report goes on being watched. */
  ghost predicate Followed(n: Node, w: Watched, m: Node, v: Watched) {
    && (m.Leveled() && Exact(n, w) ==> Exact(m, v))
    && (Lasting(m, w) ==> !NoFilters(v))
  }

  ghost predicate Lasting(n: Node, w: Watched) { n.Filtered() && !n.oneshot && !NoFilters(w) }

  /** Wherever they agreed they agree still, and what was watched is. */
  ghost predicate ExactKept(was: map<int, Node>, wasQueue: map<int, Watched>, now: map<int, Node>, queue: map<int, Watched>) {
    && (forall fd :: fd in was && was[fd].Leveled() && Exact(was[fd], AtIn(wasQueue, fd)) ==>
          fd in now && now[fd].Leveled() && Exact(now[fd], AtIn(queue, fd)))
    && forall fd :: fd in was && Lasting(was[fd], AtIn(wasQueue, fd)) ==> fd in now && Lasting(now[fd], AtIn(queue, fd))
  }

  lemma ExactWatches(n: Node, w: Watched)
    requires n.Sound()
    ensures n.Filtered() && Exact(n, w) ==> !NoFilters(w)
  {
    if n.Filtered() {
      NeverEmpty(n.Interest());
    }
  }

  lemma Unmoved(was: map<int, Node>, mid: map<int, Node>, queue: map<int, Watched>)
    requires SameFiles(was, mid) && forall fd :: fd in was && !was[fd].edge ==> mid[fd] == was[fd]
    ensures ExactKept(was, queue, mid, queue)
  {
  }

  lemma ExactKeptStep(was: map<int, Node>, wasQueue: map<int, Watched>, mid: map<int, Node>, midQueue: map<int, Watched>,
                      x: int, now: map<int, Node>, queue: map<int, Watched>)
    requires ExactKept(was, wasQueue, mid, midQueue)
    requires x in mid && x in now && now == mid[x := now[x]] && (mid[x].Leveled() ==> now[x].Leveled())
    requires mid[x].Filtered() && !mid[x].oneshot ==> now[x].Filtered() && !now[x].oneshot
    requires forall fd :: fd != x ==> AtIn(queue, fd) == AtIn(midQueue, fd)
    requires Followed(mid[x], AtIn(midQueue, x), now[x], AtIn(queue, x))
    ensures ExactKept(was, wasQueue, now, queue)
  {
  }

  lemma ExactKeptFirst(x: int, was: map<int, Node>, wasQueue: map<int, Watched>, now: map<int, Node>, queue: map<int, Watched>)
    requires x in was && x in now && now == was[x := now[x]] && Kept(was[x], now[x])
    requires forall fd :: fd != x ==> AtIn(queue, fd) == AtIn(wasQueue, fd)
    ensures Followed(was[x], AtIn(wasQueue, x), now[x], AtIn(queue, x)) ==> ExactKept(was, wasQueue, now, queue)
  {
  }

  lemma ExactKeptOn(was: map<int, Node>, wasQueue: map<int, Watched>, mid: map<int, Node>, midQueue: map<int, Watched>,
                    now: map<int, Node>, queue: map<int, Watched>)
    requires ExactKept(was, wasQueue, mid, midQueue) && ExactKept(mid, midQueue, now, queue)
    ensures ExactKept(was, wasQueue, now, queue)
  {
  }

  /** An event breaks at most the agreement of the filters with the ends of the file. */
  lemma FedStays(n: Node, m: Node, ev: Event, pending: bool, w: Watched, pollOnly: bool, drifted: bool)
    requires Good(n, w, pollOnly, drifted) && n.Reporting() && Feedable(n, ev) && FedTo(n, m, ev, pending)
    requires n.kind.KQueue? ==> n.revents == {}
    ensures m.Sound() && m.isRegistered && Queued(m, w) && Settled(m, pollOnly)
    ensures m.Leveled() && !drifted ==> NoFilters(w) || (w.read == n.Needs().read && w.write == n.Needs().write)
    ensures n.revents != {} ==> m.revents != {}
  {
    FedGrows(n.kind, Bits(n.events), n.Reading(), n.Progress(), ev);
  }

  function AtIn(queue: map<int, Watched>, fd: int): Watched { if fd in queue then queue[fd] else UNWATCHED }

  /** What a call of kevent finds: the nodes, the kqueue, and whether the event that makes
      pollers come back is active. */
  datatype Start = Start(nodes: map<int, Node>, queue: map<int, Watched>, repoll: bool)

  /** A point in a round to look back to. */
  datatype Mark = Mark(nodes: map<int, Node>, queue: map<int, Watched>, calls: nat, polled: nat)

  /** An event of something that is in the kqueue. */
  predicate Present(e: KEvent, st: Start) {
    match e
    case File(x, ev) =>
      && x in st.nodes && (st.nodes[x].kind.KQueue? ==> !ev.eof)
      && (match ev.filter
          case Read => AtIn(st.queue, x).read != Off
          case Write => AtIn(st.queue, x).write != Off
          case Except => st.nodes[x].has.except)
    case Self(x) => AtIn(st.queue, x).active
    case Repoll => st.repoll
  }

  /** What kevent may deliver: events of things in the kqueue, each at most once. */
  predicate Lawful(batch: seq<KEvent>, cnt: int, st: Start) {
    && |batch| <= cnt
    && (forall k :: 0 <= k < |batch| ==> Present(batch[k], st))
    && (forall k, l :: 0 <= k < l < |batch| ==> KeyOf(batch[k]) != KeyOf(batch[l]))
  }

  /** What kevent does deliver, `ds` being the batches to come. */
  function Taking(ds: seq<seq<KEvent>>, cnt: int, st: Start): seq<KEvent> {
    if ds == [] || !Lawful(ds[0], cnt, st) then [] else ds[0]
  }

  /** An event that the event loop can take up. */
  ghost predicate Deliverable(e: KEvent, nodes: map<int, Node>, queue: map<int, Watched>) {
    && (!e.Repoll? ==> e.fd in nodes)
    && (e.File? ==> Feedable(nodes[e.fd], e.ev) && (nodes[e.fd].kind.KQueue? ==> nodes[e.fd].revents == {}))
    && (e.Self? ==>
          && nodes[e.fd].revents == {}
          && (nodes[e.fd].kind.PollOnly? || (nodes[e.fd].Waiting() && AtIn(queue, e.fd).self && !AtIn(queue, e.fd).active)))
  }

  /** Only events of the same file's filters concern the same file, and a kqueue has one. */
  ghost predicate Apart(batch: seq<KEvent>, nodes: map<int, Node>) {
    forall k, l :: 0 <= k < l < |batch| && !batch[k].Repoll? && !batch[l].Repoll? && batch[k].fd == batch[l].fd ==>
      batch[k].File? && batch[l].File? && batch[k].fd in nodes && !nodes[batch[k].fd].kind.KQueue?
  }

  /** Every event of a batch concerns a registered file, or pollers. */
  ghost predicate Addressed(batch: seq<KEvent>, nodes: map<int, Node>) {
    && Apart(batch, nodes)
    && forall k :: 0 <= k < |batch| && !batch[k].Repoll? ==>
         && batch[k].fd in nodes
         && (batch[k].File? <==> !(nodes[batch[k].fd].kind.PollOnly? || batch[k].Self?))
         && (batch[k].Self? ==> nodes[batch[k].fd].kind.PollOnly? || nodes[batch[k].fd].Waiting())
  }

  /** Where an event counts: a file has at most three, its own event being instead of others. */
  function SlotOf(e: KEvent): Key { if e.Self? then FileKey(e.fd, Read) else KeyOf(e) }

  ghost function SlotsOf(fds: set<int>): set<Key> {
    set fd, f | fd in fds && f in {Read, Write, Except} :: FileKey(fd, f)
  }

  lemma {:induction false} SlotsCounted(fds: set<int>)
    ensures |SlotsOf(fds)| <= 3 * |fds|
  {
    if fd :| fd in fds {
      SlotsCounted(fds - {fd});
      assert SlotsOf(fds) == SlotsOf(fds - {fd}) + {FileKey(fd, Read), FileKey(fd, Write), FileKey(fd, Except)};
      assert |{FileKey(fd, Read), FileKey(fd, Write), FileKey(fd, Except)}| == 3;
    } else {
      assert SlotsOf(fds) == {};
    }
  }

  /** No batch is longer than three events for every file, and one for pollers. */
  lemma BatchBound(batch: seq<KEvent>, cnt: int, st: Start)
    requires Lawful(batch, cnt, st) && Addressed(batch, st.nodes)
    ensures |batch| <= 3 * |st.nodes| + 1
  {
    var slots := seq(|batch|, k requires 0 <= k < |batch| => SlotOf(batch[k]));
    var all := SlotsOf(st.nodes.Keys) + {RepollKey};
    forall k | 0 <= k < |slots| ensures slots[k] in all {
      SlotIn(batch[k], st.nodes.Keys);
    }
    forall k, l | 0 <= k < l < |slots| ensures slots[k] != slots[l] {
      SlotsDiffer(batch, st.nodes, k, l);
    }
    DistinctFit(slots, all);
    SlotsCounted(st.nodes.Keys);
    assert |all| <= |SlotsOf(st.nodes.Keys)| + 1;
    assert |st.nodes.Keys| == |st.nodes|;
  }

  lemma SlotIn(e: KEvent, fds: set<int>)
    requires e.Repoll? || e.fd in fds
    ensures SlotOf(e) == RepollKey || SlotOf(e) in SlotsOf(fds)
  {
    if e.File? {
      assert e.ev.filter == Read || e.ev.filter == Write || e.ev.filter == Except;
      assert FileKey(e.fd, e.ev.filter) in SlotsOf(fds);
    }
  }

  lemma SlotsDiffer(batch: seq<KEvent>, nodes: map<int, Node>, k: nat, l: nat)
    requires k < l < |batch| && Apart(batch, nodes) && KeyOf(batch[k]) != KeyOf(batch[l])
    ensures SlotOf(batch[k]) != SlotOf(batch[l])
  {
  }

  /** Events still to come can still be taken up after one of another kind or file. */
  lemma StillDeliverable(batch: seq<KEvent>, i: nat, x: int, was: map<int, Node>, now: map<int, Node>,
                         wasQueue: map<int, Watched>, queue: map<int, Watched>)
    requires i < |batch| && Apart(batch, was) && !batch[i].Repoll? && batch[i].fd == x
    requires forall k :: i <= k < |batch| ==> Deliverable(batch[k], was, wasQueue)
    requires x in was && x in now && now == was[x := now[x]] && Kept(was[x], now[x])
    requires forall fd :: fd != x ==> AtIn(queue, fd) == AtIn(wasQueue, fd)
    ensures Apart(batch, now)
    ensures forall k :: i < k < |batch| ==> Deliverable(batch[k], now, queue)
  {
  }

  /** Exactly the files in `who`, each once, have something to report. */
  ghost predicate Waiters(nodes: map<int, Node>, who: seq<int>) {
    && (forall k :: 0 <= k < |who| ==> who[k] in nodes)
    && (forall k, l :: 0 <= k < l < |who| ==> who[k] != who[l])
    && (forall fd :: fd in nodes ==> (nodes[fd].revents != {} <==> fd in who))
  }

  lemma WaitersGrow(x: int, news: bool, who: seq<int>, was: map<int, Node>, now: map<int, Node>)
    requires Waiters(was, who) && x in was && x in now && now == was[x := now[x]]
    requires was[x].revents != {} ==> now[x].revents != {}
    requires news <==> was[x].revents == {} && now[x].revents != {}
    ensures Waiters(now, if news then who + [x] else who)
  {
    assert was[x].revents != {} <==> x in who;
  }

  /** The same files are registered, as their callers set them. */
  ghost predicate SameFiles(was: map<int, Node>, now: map<int, Node>) {
    now.Keys == was.Keys && forall fd :: fd in now ==> Kept(was[fd], now[fd])
  }

  lemma SameSize(was: map<int, Node>, now: map<int, Node>)
    requires SameFiles(was, now)
    ensures |now| == |was|
  {
    assert |now| == |now.Keys| && |was| == |was.Keys|;
  }

  /** The events of a file's filters in a batch. */
  function EventsOf(batch: seq<KEvent>, fd: int): seq<Event> {
    if batch == [] then []
    else
      var last := batch[|batch| - 1];
      EventsOf(batch[..|batch| - 1], fd) + if last.File? && last.fd == fd then [last.ev] else []
  }

  /** What one event of a batch does to the nodes. */
  ghost predicate Taken(was: map<int, Node>, now: map<int, Node>, e: KEvent, pending: bool) {
    if e.Repoll? then now == was
    else
      && e.fd in was && e.fd in now && now == was[e.fd := now[e.fd]] && Kept(was[e.fd], now[e.fd])
      && (e.File? ==> Processed(was[e.fd], now[e.fd], e.ev, pending))
      && (e.Self? ==> was[e.fd].kind.PollOnly? || was[e.fd].kind.Fifo?)
  }

  /** Files whose events tell all, whatever else happens. */
  predicate Plain(n: Node) { n.kind.Socket? || n.kind.Ordinary? || (n.kind.KQueue? && !n.hasDesc) }

  function Fold(n: Node, evs: seq<Event>): Progress { FedAll(n.kind, Bits(n.events), n.Reading(), n.Progress(), evs) }

  /** Every such file has taken exactly its events of the batch, in order. */
  ghost predicate Folded(was: map<int, Node>, now: map<int, Node>, batch: seq<KEvent>) {
    forall fd :: fd in was && Plain(was[fd]) ==> fd in now && now[fd].Progress() == Fold(was[fd], EventsOf(batch, fd))
  }

  /** One more event, for a node in which only what events change has changed. */
  lemma FoldAppend(n: Node, m: Node, evs: seq<Event>, ev: Event, pending: bool)
    requires !(n.kind.KQueue? && n.hasDesc) && Kept(n, m) && m.Reading() == n.Reading() && m.Progress() == Fold(n, evs)
    ensures Fold(n, evs + [ev]) == Fed(m.kind, Bits(m.events), m.Reading(), m.Progress(), ev)
    ensures Fold(n, evs + [ev]) == Feed(m, ev, pending).Progress()
  {
    FedAllAppend(n.kind, Bits(n.events), n.Reading(), n.Progress(), evs, ev);
  }

  lemma FoldedStep(was: map<int, Node>, mid: map<int, Node>, now: map<int, Node>, batch: seq<KEvent>, i: nat, pending: bool)
    requires i < |batch| && SameFiles(was, mid) && Folded(was, mid, batch[..i]) && Taken(mid, now, batch[i], pending)
    ensures Folded(was, now, batch[..i + 1])
  {
    forall fd | fd in was && Plain(was[fd]) ensures now[fd].Progress() == Fold(was[fd], EventsOf(batch[..i + 1], fd)) {
      var n, e := was[fd], batch[i];
      assert Kept(n, mid[fd]);
      EventsOfNext(batch, i, fd);
      if e.File? && e.fd == fd {
        FoldAppend(n, mid[fd], EventsOf(batch[..i], fd), e.ev, pending);
      }
    }
  }

  lemma EventsOfNext(batch: seq<KEvent>, i: nat, fd: int)
    requires i < |batch|
    ensures var e := batch[i];
            EventsOf(batch[..i + 1], fd) ==
              if e.File? && e.fd == fd then EventsOf(batch[..i], fd) + [e.ev] else EventsOf(batch[..i], fd)
  {
    assert batch[..i + 1][..i] == batch[..i];
  }

  /** So has every FIFO that has filters, if no call has failed. */
  ghost predicate FifosFolded(was: map<int, Node>, now: map<int, Node>, batch: seq<KEvent>) {
    forall fd :: fd in was && was[fd].kind.Fifo? && (was[fd].has.read || was[fd].has.write) ==>
      && fd in now && now[fd].Progress() == Fold(was[fd], EventsOf(batch, fd))
      && now[fd].has.read == was[fd].has.read && (now[fd].has.read || now[fd].has.write)
  }

  lemma FifosFoldedStep(was: map<int, Node>, mid: map<int, Node>, now: map<int, Node>, batch: seq<KEvent>, i: nat, pending: bool)
    requires i < |batch| && SameFiles(was, mid) && FifosFolded(was, mid, batch[..i]) && Taken(mid, now, batch[i], pending)
    requires var e := batch[i];
             && (e.File? ==> FifoFed(mid[e.fd], now[e.fd], e.ev))
             && (e.Self? && mid[e.fd].kind.Fifo? ==> mid[e.fd].has == NO_FLAGS)
    ensures FifosFolded(was, now, batch[..i + 1])
  {
    forall fd | fd in was && was[fd].kind.Fifo? && (was[fd].has.read || was[fd].has.write)
      ensures now[fd].Progress() == Fold(was[fd], EventsOf(batch[..i + 1], fd))
      ensures now[fd].has.read == was[fd].has.read && (now[fd].has.read || now[fd].has.write)
    {
      var n, e := was[fd], batch[i];
      assert Kept(n, mid[fd]);
      EventsOfNext(batch, i, fd);
      if e.File? && e.fd == fd {
        FoldAppend(n, mid[fd], EventsOf(batch[..i], fd), e.ev, pending);
      }
    }
  }

  /** An event that concerns a file. */
  predicate Concerns(e: KEvent, fd: int) { !e.Repoll? && e.fd == fd }

  /** Nothing has happened to files that no event concerns. */
  ghost predicate Untouched(was: map<int, Node>, now: map<int, Node>, batch: seq<KEvent>) {
    forall fd :: fd in was && (forall k :: 0 <= k < |batch| ==> !Concerns(batch[k], fd)) ==> fd in now && now[fd] == was[fd]
  }

  lemma UntouchedStep(was: map<int, Node>, mid: map<int, Node>, now: map<int, Node>, batch: seq<KEvent>, i: nat, pending: bool)
    requires i < |batch| && Untouched(was, mid, batch[..i]) && Taken(mid, now, batch[i], pending)
    ensures Untouched(was, now, batch[..i + 1])
  {
    var b, c := batch[..i], batch[..i + 1];
    forall fd | fd in was && (forall k :: 0 <= k < |c| ==> !Concerns(c[k], fd)) ensures fd in now && now[fd] == was[fd] {
      assert !Concerns(c[i], fd);
      assert forall k :: 0 <= k < |b| ==> c[k] == b[k];
    }
  }

  /** An event upon which a file is polled. */
  ghost predicate Polls(e: KEvent, n: Node) { (e.Self? && n.kind.PollOnly?) || (e.File? && n.kind.KQueue? && n.hasDesc) }

  /** The user event of a FIFO without a reader: it has its write filter now, or reports an
      error. */
  ghost predicate Tried(n: Node, m: Node) {
    m.revents == if m.has.write then {} else {ERR, OUT} * Reportable(Bits(n.events))
  }

  // ---- completing reports ----

  ghost function Unseen(n: Node): set<Key> {
    (if n.has.read && !n.got.read then {FileKey(n.fd, Read)} else {})
    + (if n.has.write && !n.got.write then {FileKey(n.fd, Write)} else {})
    + (if n.has.except && !n.got.except then {FileKey(n.fd, Except)} else {})
  }

  /** A filter whose event can be fed when it comes. */
  ghost predicate Awaited(key: Key, nodes: map<int, Node>) {
    && key.FileKey? && key.fd in nodes && nodes[key.fd].revents != {}
    && var n := nodes[key.fd];
       && !n.kind.PollOnly? && !n.kind.KQueue?
       && (n.kind.Fifo? ==> (key.filter == Read ==> n.kind.readable) && (key.filter == Write ==> n.kind.writable))
       && (key.filter == Except ==> n.kind.Socket?)
  }

  lemma UnseenAwaited(x: int, n: Node, nodes: map<int, Node>)
    requires x in nodes && nodes[x] == n && n.fd == x && n.Sound() && n.Reporting() && n.revents != {}
    ensures forall key :: key in Unseen(n) ==> Awaited(key, nodes) && key.fd == x
  {
  }

  ghost predicate AllAwaited(asked: set<Key>, nodes: map<int, Node>, edges: bool) {
    forall key :: key in asked ==> Awaited(key, nodes) && (edges ==> nodes[key.fd].edge)
  }

  lemma AwaitedStay(x: int, asked: set<Key>, edges: bool, was: map<int, Node>, now: map<int, Node>)
    requires AllAwaited(asked, was, edges) && x in was && x in now && now == was[x := now[x]]
    requires Kept(was[x], now[x]) && (was[x].revents != {} ==> now[x].revents != {})
    ensures AllAwaited(asked, now, edges)
  {
  }

  /** What is asked for of the files in `who`: of edge-triggered ones, or of all. */
  ghost function AskedOf(nodes: map<int, Node>, who: seq<int>, all: bool): set<Key> {
    if who == [] then {}
    else
      var fd := who[|who| - 1];
      AskedOf(nodes, who[..|who| - 1], all) + if fd in nodes && (all || nodes[fd].edge) then Unseen(nodes[fd]) else {}
  }

  lemma AskedNext(nodes: map<int, Node>, who: seq<int>, i: nat, all: bool)
    requires i < |who| && who[i] in nodes
    ensures var n := nodes[who[i]];
            AskedOf(nodes, who[..i + 1], all) == AskedOf(nodes, who[..i], all) + if all || n.edge then Unseen(n) else {}
  {
    assert who[..i + 1][..i] == who[..i];
  }

  lemma {:induction false} AskedMeans(nodes: map<int, Node>, who: seq<int>, all: bool)
    requires Named(nodes)
    ensures forall fd, f :: FileKey(fd, f) in AskedOf(nodes, who, all) <==>
              fd in who && fd in nodes && (all || nodes[fd].edge) && FileKey(fd, f) in Unseen(nodes[fd])
  {
    if who != [] {
      var front := who[..|who| - 1];
      AskedMeans(nodes, front, all);
      assert who == front + [who[|who| - 1]];
    }
  }

  /** What a kqueue that was asked once for some events may deliver. */
  predicate LawfulCompletion(batch: seq<KEvent>, asked: set<Key>) {
    && |batch| <= 32
    && (forall k :: 0 <= k < |batch| ==> batch[k].File? && KeyOf(batch[k]) in asked)
    && (forall k, l :: 0 <= k < l < |batch| ==> KeyOf(batch[k]) != KeyOf(batch[l]))
  }

  function KeysOf(batch: seq<KEvent>): set<Key> { set k | 0 <= k < |batch| :: KeyOf(batch[k]) }

  /** What it does deliver, `ds` being the batches to come, until one is empty. */
  function Completion(ds: seq<seq<KEvent>>, asked: set<Key>): seq<KEvent>
    decreases |ds|
  {
    if ds == [] || ds[0] == [] || !LawfulCompletion(ds[0], asked) then []
    else ds[0] + Completion(ds[1..], asked - KeysOf(ds[0]))
  }

  lemma CompletionFirst(ds: seq<seq<KEvent>>, asked: set<Key>, done: seq<KEvent>)
    requires ds != [] && ds[0] != [] && LawfulCompletion(ds[0], asked)
    ensures done + Completion(ds, asked) == done + ds[0] + Completion(ds[1..], asked - KeysOf(ds[0]))
  {
  }

  lemma LawfulAsked(batch: seq<KEvent>, left: set<Key>, asked: set<Key>)
    requires LawfulCompletion(batch, left) && left <= asked
    ensures forall k :: 0 <= k < |batch| ==> batch[k].File? && KeyOf(batch[k]) in asked
  {
  }

  lemma {:induction false} CompletionAsked(ds: seq<seq<KEvent>>, asked: set<Key>)
    ensures forall k :: 0 <= k < |Completion(ds, asked)| ==> Completion(ds, asked)[k].File? && KeyOf(Completion(ds, asked)[k]) in asked
    decreases |ds|
  {
    if ds != [] && ds[0] != [] && LawfulCompletion(ds[0], asked) {
      CompletionAsked(ds[1..], asked - KeysOf(ds[0]));
    }
  }

  lemma NothingAsked(ds: seq<seq<KEvent>>)
    ensures Completion(ds, {}) == []
  {
    assert ds != [] && ds[0] != [] ==> KeyOf(ds[0][0]) !in {};
  }

  /** No event that is not asked for: nothing is delivered of a file of which nothing is asked. */
  lemma {:induction false} NoneOf(batch: seq<KEvent>, fd: int)
    requires forall k :: 0 <= k < |batch| && batch[k].File? ==> batch[k].fd != fd
    ensures EventsOf(batch, fd) == []
  {
    if batch != [] {
      NoneOf(batch[..|batch| - 1], fd);
    }
  }

  function FedNode(n: Node, evs: seq<Event>): Node {
    var p := Fold(n, evs);
    n.(eof := p.eof, revents := p.revents, got := p.got)
  }

  lemma FedNodeAppend(n: Node, evs: seq<Event>, ev: Event, pending: bool)
    requires !n.kind.KQueue?
    ensures FedNode(n, evs + [ev]) == Feed(FedNode(n, evs), ev, pending)
  {
    FoldAppend(n, FedNode(n, evs), evs, ev, pending);
  }

  /** Every node has been fed its events, and nothing else has happened. */
  ghost predicate Extended(was: map<int, Node>, now: map<int, Node>, batch: seq<KEvent>) {
    now.Keys == was.Keys && forall fd :: fd in was ==> now[fd] == FedNode(was[fd], EventsOf(batch, fd))
  }

  lemma ExtendedStep(x: int, ev: Event, pending: bool, was: map<int, Node>, mid: map<int, Node>, now: map<int, Node>, batch: seq<KEvent>)
    requires Extended(was, mid, batch) && x in mid && x in now && now == mid[x := now[x]] && !mid[x].kind.KQueue?
    requires now[x] == Feed(mid[x], ev, pending)
    ensures Extended(was, now, batch + [File(x, ev)])
  {
    FedNodeAppend(was[x], EventsOf(batch, x), ev, pending);
    forall fd | fd in was ensures now[fd] == FedNode(was[fd], EventsOf(batch + [File(x, ev)], fd)) {
      EventsOfMore(batch, x, ev, fd);
    }
  }

  lemma EventsOfMore(batch: seq<KEvent>, x: int, ev: Event, fd: int)
    ensures EventsOf(batch + [File(x, ev)], fd) == if fd == x then EventsOf(batch, fd) + [ev] else EventsOf(batch, fd)
  {
    var b := batch + [File(x, ev)];
    assert b[..|batch|] == batch && b[..|b|] == b && b[|batch|] == File(x, ev);
    EventsOfNext(b, |batch|, fd);
  }

  /** Level-triggered files keep out of a completion pass that is for edge-triggered ones. */
  lemma Spared(was: map<int, Node>, now: map<int, Node>, queue: map<int, Watched>, batch: seq<KEvent>, asked: set<Key>)
    requires Extended(was, now, batch) && forall k :: 0 <= k < |batch| ==> batch[k].File? && KeyOf(batch[k]) in asked
    requires AllAwaited(asked, was, true)
    ensures forall fd :: fd in was && !was[fd].edge ==> now[fd] == was[fd]
    ensures ExactKept(was, queue, now, queue)
  {
    forall fd | fd in was && !was[fd].edge ensures now[fd] == was[fd] {
      forall k | 0 <= k < |batch| && batch[k].File? ensures batch[k].fd != fd {
        assert KeyOf(batch[k]) in asked;
      }
      NoneOf(batch, fd);
    }
  }

  // ---- handing out reports ----

  /** The node after its report was taken. */
  ghost predicate Cleared(n: Node, m: Node) {
    m == if n.oneshot then n.(revents := {}, got := NO_FLAGS, has := NO_FLAGS, onList := false) else n.(revents := {}, got := NO_FLAGS)
  }

  function ReportOf(nodes: map<int, Node>, fd: int): EpollEvent
    requires fd in nodes
  {
    EpollEvent(nodes[fd].revents, User(nodes[fd].data))
  }

  /** The reports of the first `i` files have been taken. */
  ghost predicate Handed(was: map<int, Node>, now: map<int, Node>, who: seq<int>, i: nat) {
    && now.Keys == was.Keys && i <= |who|
    && forall fd :: fd in now ==> if fd in who[..i] then Cleared(was[fd], now[fd]) else now[fd] == was[fd]
  }

  lemma HandedStep(was: map<int, Node>, mid: map<int, Node>, now: map<int, Node>, who: seq<int>, i: nat)
    requires Handed(was, mid, who, i) && i < |who| && Waiters(was, who)
    requires who[i] in now && now == mid[who[i] := now[who[i]]] && Cleared(mid[who[i]], now[who[i]])
    ensures Handed(was, now, who, i + 1)
  {
    assert who[..i + 1] == who[..i] + [who[i]];
  }

  lemma HandedAll(was: map<int, Node>, now: map<int, Node>, who: seq<int>)
    requires Handed(was, now, who, |who|) && Waiters(was, who)
    ensures forall fd :: fd in now ==> now[fd].revents == {}
  {
    assert who[..|who|] == who;
  }

  ghost predicate Settings(n: Node, m: Node) {
    m == n.(has := m.has, got := m.got, eof := m.eof, revents := m.revents, onList := m.onList)
  }

  /** The same files are registered, with the same settings of their callers. */
  ghost predicate SameSettings(was: map<int, Node>, now: map<int, Node>) {
    now.Keys == was.Keys && forall fd :: fd in now ==> Settings(was[fd], now[fd])
  }

  lemma SettingsOn(was: map<int, Node>, mid: map<int, Node>, now: map<int, Node>)
    requires SameSettings(was, mid) && SameSettings(mid, now)
    ensures SameSettings(was, now)
  {
  }

  lemma SettingsAfter(was: map<int, Node>, mid: map<int, Node>, now: map<int, Node>)
    requires SameFiles(was, mid) && SameSettings(mid, now)
    ensures SameSettings(was, now)
  {
  }

  /** The same, but for files of a list that may be gone. */
  ghost predicate SubSettings(was: map<int, Node>, now: map<int, Node>, list: seq<int>) {
    && now.Keys <= was.Keys && (forall fd :: fd in now ==> Settings(was[fd], now[fd]))
    && forall fd :: fd in was && fd !in list ==> fd in now
  }

  lemma SameCount(was: map<int, Node>, now: map<int, Node>)
    requires SameSettings(was, now)
    ensures |now| == |was|
  {
    assert |now| == |now.Keys| && |was| == |was.Keys|;
  }

  ghost predicate Entry(n: Node, e: EpollEvent) {
    && e.data == User(n.data) && e.events != {} && e.events <= Reportable(Bits(n.events))
    && (n.oneshot ==> n.has == NO_FLAGS && !n.onList)
  }

  /** The first `j` entries report on different registered files, each something, and nothing
      that the file's caller did not ask for but errors and hang-ups; a one-shot file is not
      watched any longer. */
  ghost predicate Entries(nodes: map<int, Node>, ev: seq<EpollEvent>, j: nat, who: seq<int>) {
    && |who| == j <= |ev|
    && (forall k :: 0 <= k < j ==> who[k] in nodes)
    && (forall k, l :: 0 <= k < l < j ==> who[k] != who[l])
    && (forall k :: 0 <= k < j ==> Entry(nodes[who[k]], ev[k]))
  }

  lemma HandedNobody(was: map<int, Node>, now: map<int, Node>, who: seq<int>)
    requires Handed(was, now, who, 0)
    ensures now == was
  {
    assert who[..0] == [];
    assert forall fd :: fd in now ==> now[fd] == was[fd];
  }

  lemma HandedMeans(was: map<int, Node>, mid: map<int, Node>, now: map<int, Node>, ev: seq<EpollEvent>, who: seq<int>)
    requires SameFiles(was, mid) && Waiters(mid, who) && Handed(mid, now, who, |who|) && |who| <= |ev|
    requires forall fd :: fd in mid ==> mid[fd].Reporting()
    requires forall k :: 0 <= k < |who| ==> ev[k] == ReportOf(mid, who[k])
    ensures SameSettings(was, now) && Entries(now, ev, |who|, who)
  {
    assert who[..|who|] == who;
  }

  // ---- rounds ----

  /** One round of a wait: where it starts, what kevent delivers to it, the nodes after its event
      loop, and what the completion pass delivers. */
  datatype Pass = Pass(start: Start, took: seq<KEvent>, told: map<int, Node>, extra: seq<KEvent>)

  /** The files that have something to report are reported, with what the completion pass adds;
      `ds` are the batches to come. */
  ghost predicate Handled(p: Pass, ds: seq<seq<KEvent>>, ev: seq<EpollEvent>, j: nat, who: seq<int>, full: bool) {
    && |who| == j <= |ev| && Waiters(p.told, who)
    && p.extra == Completion(ds, AskedOf(p.told, who, full))
    && forall k :: 0 <= k < j ==>
         && ev[k].events == FedNode(p.told[who[k]], EventsOf(p.extra, who[k])).revents
         && ev[k].data == User(p.told[who[k]].data)
  }

  /** The nodes at the end of the round: what the completion pass tells is known, and what has been
      reported is no longer there to report. */
  ghost predicate Finished(told: map<int, Node>, now: map<int, Node>, who: seq<int>, extra: seq<KEvent>) {
    && now.Keys == told.Keys
    && forall fd :: fd in told ==>
         var n := FedNode(told[fd], EventsOf(extra, fd));
         if fd in who then Cleared(n, now[fd]) else now[fd] == n
  }

  lemma FinishedMeans(told: map<int, Node>, mid: map<int, Node>, now: map<int, Node>, who: seq<int>, extra: seq<KEvent>)
    requires Extended(told, mid, extra) && Handed(mid, now, who, |who|)
    ensures Finished(told, now, who, extra)
  {
    assert who[..|who|] == who;
  }

  function Tail(ds: seq<seq<KEvent>>): seq<seq<KEvent>> { if ds == [] then [] else ds[1..] }

  /** The batches that are left after the first `k`. */
  function Left(ds: seq<seq<KEvent>>, k: nat): seq<seq<KEvent>> { if k <= |ds| then ds[k..] else [] }

  ghost predicate Named(nodes: map<int, Node>) { forall fd :: fd in nodes ==> nodes[fd].fd == fd }

  /** Every node by itself is as nodes are, and reports what it may. */
  ghost predicate Sensible(nodes: map<int, Node>) { forall fd :: fd in nodes ==> nodes[fd].Sound() && nodes[fd].Reporting() }

  ghost predicate Resting(nodes: map<int, Node>) { forall fd :: fd in nodes ==> nodes[fd].revents == {} }

  /** The rounds of a wait: each gets what the kqueue delivers; all but the last have nothing to
      report, and the next one starts as they end; the last is reported. */
  ghost predicate History(h: seq<Pass>, ds: seq<seq<KEvent>>, cnt: int, ev: seq<EpollEvent>, j: nat, who: seq<int>, full: bool) {
    && 1 <= |h| <= |ds| + 1 && Passes(h, ds, cnt)
    && (forall k :: 0 <= k < |h| - 1 ==> Vain(h[k]) && h[k + 1].start.nodes == h[k].told)
    && var last := h[|h| - 1];
       Handled(last, Left(ds, |h|), ev, j, who, full) && (last.took == [] || j > 0)
  }

  ghost predicate Passes(h: seq<Pass>, ds: seq<seq<KEvent>>, cnt: int) {
    forall k :: 0 <= k < |h| ==>
      && h[k].took == Taking(Left(ds, k), cnt, h[k].start)
      && Resting(h[k].start.nodes) && Named(h[k].start.nodes) && SameFiles(h[k].start.nodes, h[k].told)
      && Addressed(h[k].took, h[k].start.nodes) && Sensible(h[k].told)
  }

  /** Events came, but nothing to report. */
  ghost predicate Vain(p: Pass) { p.took != [] && p.extra == [] && Resting(p.told) }

  /** A round in which nobody has anything to report. */
  lemma InVain(p: Pass, ds: seq<seq<KEvent>>, ev: seq<EpollEvent>, who: seq<int>, full: bool)
    requires Handled(p, ds, ev, 0, who, full) && p.took != []
    ensures Vain(p)
  {
    NothingAsked(ds);
  }

  lemma {:induction false} SameKeys(h: seq<Pass>, ds: seq<seq<KEvent>>, cnt: int, k: nat)
    requires k < |h| && Passes(h, ds, cnt) && forall i :: 0 <= i < |h| - 1 ==> h[i + 1].start.nodes == h[i].told
    ensures h[k].start.nodes.Keys == h[0].start.nodes.Keys
    decreases k
  {
    if k > 0 {
      SameKeys(h, ds, cnt, k - 1);
      assert h[k - 1 + 1].start.nodes == h[k - 1].told;
    }
  }

  /** Kevents for three events of every file, and more, are not filled by a round. */
  lemma RoundBound(h: seq<Pass>, ds: seq<seq<KEvent>>, cnt: int, k: nat)
    requires k < |h| && Passes(h, ds, cnt) && forall i :: 0 <= i < |h| - 1 ==> h[i + 1].start.nodes == h[i].told
    ensures |h[k].took| <= 3 * |h[0].start.nodes| + 1
  {
    SameKeys(h, ds, cnt, k);
    assert |h[k].start.nodes| == |h[k].start.nodes.Keys| && |h[0].start.nodes| == |h[0].start.nodes.Keys|;
    if h[k].took != [] {
      BatchBound(h[k].took, cnt, h[k].start);
    }
  }

  /** A filter that is registered as needed delivers batches of what is needed. */
  lemma ExactBatch(n: Node, w: Watched, c: Condition, evs: seq<Event>)
    requires Exact(n, w) && Batch(Needed(w.read, w.write, Off), c, evs)
    ensures Batch(n.Needs(), c, evs)
  {
    assert forall f :: f != Except ==> ModeOf(n.Needs(), f) == ModeOf(Needed(w.read, w.write, Off), f);
    assert forall k :: 0 <= k < |evs| ==> evs[k].filter != Except;
  }

  /** The filters of a file, and a batch for it that fits them. */
  ghost predicate Fits(p: Pass, fd: int, c: Condition) {
    var w := AtIn(p.start.queue, fd);
    Batch(Needed(w.read, w.write, Off), c, Plainly(EventsOf(p.took, fd)))
  }

  /** What epoll owes for a file is reported, with the errors and the out-of-band data that its
      events tell of, and nothing else. */
  ghost predicate ReportedExactly(n: Node, c: Condition, evs: seq<Event>, fd: int, ev: seq<EpollEvent>, j: nat, who: seq<int>) {
    ReportedAs(ReportDue(n.kind, n.events, c, evs), n.data, fd, ev, j, who)
  }

  /** These bits, if there are any, are reported of the file, with its caller's value. */
  ghost predicate ReportedAs(due: Mask, data: int, fd: int, ev: seq<EpollEvent>, j: nat, who: seq<int>) {
    && |who| == j <= |ev| && (due != {} <==> fd in who)
    && forall k :: 0 <= k < j && who[k] == fd ==> ev[k] == EpollEvent(due, User(data))
  }

  /** The same in terms of what the caller has asked for: its bits that are due, bit by bit, EPOLLHUP
      where both ends are closed, what the events tell of errors and of out-of-band data, and its
      value. */
  ghost predicate ReportedAsAsked(r: Request, kind: Kind, c: Condition, evs: seq<Event>, fd: int,
                                  ev: seq<EpollEvent>, j: nat, who: seq<int>)
  {
    ReportedAs(OwedTo(r, kind, c, evs), r.data, fd, ev, j, who)
  }

  ghost function OwedTo(r: Request, kind: Kind, c: Condition, evs: seq<Event>): Mask {
    var in_, out := IN in r.bits && (c.readable || c.eof.read), OUT in r.bits && (c.writable || c.eof.write);
    var rdhup, hup := RDHUP in r.bits && kind.Socket? && c.eof.read, c.eof.read && c.eof.write;
    var err := exists k :: 0 <= k < |evs| && evs[k].filter != Except && (evs[k].error || (evs[k].eof && evs[k].fflags));
    var pri := PRI in r.bits && kind.Socket? && exists k :: 0 <= k < |evs| && evs[k].filter == Except && evs[k].urgent;
    If(in_, {IN}) + If(out, {OUT}) + If(rdhup, {RDHUP}) + If(hup, {HUP}) + If(err, {ERR}) + If(pri, {PRI})
  }

  lemma AskedExactly(n: Node, r: Request, c: Condition, evs: seq<Event>, fd: int, ev: seq<EpollEvent>, j: nat, who: seq<int>)
    requires Follows(n, r) && (n.kind.Socket? || n.kind.Ordinary?) && ReportedExactly(n, c, evs, fd, ev, j, who)
    ensures ReportedAsAsked(r, n.kind, c, evs, fd, ev, j, who)
  {
    DueMeans(r, n.kind, c, evs);
    Bitwise(ReportDue(n.kind, n.events, c, evs));
    assert ReportDue(n.kind, n.events, c, evs) == OwedTo(r, n.kind, c, evs);
  }

  /** A mask is its six bits. */
  lemma Bitwise(m: Mask)
    ensures m == If(IN in m, {IN}) + If(OUT in m, {OUT}) + If(RDHUP in m, {RDHUP}) + If(HUP in m, {HUP}) + If(ERR in m, {ERR}) + If(PRI in m, {PRI})
  {
    assert m <= {IN, OUT, RDHUP, HUP, ERR, PRI} by {
      forall b | b in m ensures b in {IN, OUT, RDHUP, HUP, ERR, PRI} {
        match b
        case IN =>
        case _ =>
      }
    }
  }

  /** What the event loop makes of a file whose filters are in order and whose closed ends are
      known. */
  lemma ToldExactly(p: Pass, fd: int, c: Condition)
    requires Folded(p.start.nodes, p.told, p.took) && SameFiles(p.start.nodes, p.told) && fd in p.start.nodes
    requires var n := p.start.nodes[fd];
             && Apt(n.kind, n.events, c) && !n.edge && Fresh(n.Progress(), c)
             && Exact(n, AtIn(p.start.queue, fd)) && Fits(p, fd, c)
    ensures fd in p.told && p.told[fd].eof == c.eof
    ensures var n := p.start.nodes[fd]; p.told[fd].revents == ReportDue(n.kind, n.events, c, EventsOf(p.took, fd))
  {
    var n := p.start.nodes[fd];
    ExactBatch(n, AtIn(p.start.queue, fd), c, Plainly(EventsOf(p.took, fd)));
    FileReport(n.kind, n.events, c, n.Progress(), EventsOf(p.took, fd));
  }

  /** A file stays the same file from round to round. */
  lemma {:induction false} KeptOn(h: seq<Pass>, ds: seq<seq<KEvent>>, cnt: int, fd: int, k: nat)
    requires k < |h| && Passes(h, ds, cnt) && fd in h[0].start.nodes
    requires forall i :: 0 <= i < |h| - 1 ==> h[i + 1].start.nodes == h[i].told
    ensures fd in h[k].start.nodes && Kept(h[0].start.nodes[fd], h[k].start.nodes[fd])
    decreases k
  {
    if k > 0 {
      KeptOn(h, ds, cnt, fd, k - 1);
      assert h[k - 1 + 1].start.nodes == h[k - 1].told;
    }
  }

  /** A FIFO keeps its filters from round to round as long as no call fails. */
  lemma {:induction false} FifoOn(h: seq<Pass>, ds: seq<seq<KEvent>>, cnt: int, fd: int, k: nat)
    requires k < |h| && Passes(h, ds, cnt) && fd in h[0].start.nodes && h[0].start.nodes[fd].kind.Fifo?
    requires forall i :: 0 <= i < |h| - 1 ==> h[i + 1].start.nodes == h[i].told
    requires forall i :: 0 <= i < |h| ==> FifosFolded(h[i].start.nodes, h[i].told, h[i].took)
    requires h[0].start.nodes[fd].has.read || h[0].start.nodes[fd].has.write
    ensures fd in h[k].start.nodes
    ensures var n, m := h[0].start.nodes[fd], h[k].start.nodes[fd];
            Kept(n, m) && m.has.read == n.has.read && (m.has.read || m.has.write)
    decreases k
  {
    if k > 0 {
      FifoOn(h, ds, cnt, fd, k - 1);
      assert h[k - 1 + 1].start.nodes == h[k - 1].told;
    }
  }

  /** The events of a FIFO with one end, as its filter delivers them in a state. */
  predicate FifoFits(kind: Kind, c: Pipe, evs: seq<Event>)
    requires kind.Fifo?
  {
    var f := if kind.readable then Read else Write;
    if PipeFires(c, f) then |evs| == 1 && evs[0].filter == f && PipeTells(c, evs[0]) else evs == []
  }

  /** What epoll owes for it, with the errors that the events tell of. */
  function FifoDue(kind: Kind, asked: Mask, c: Pipe, evs: seq<Event>): Mask
    requires kind.Fifo?
  {
    (if kind.readable then DueReader(c) * (asked + {HUP}) else DueWriter(c) * (asked + {ERR})) + If(Erring(evs), {ERR})
  }

  lemma FifoTold(n: Node, c: Pipe, evs: seq<Event>)
    requires n.kind.Fifo? && n.kind.readable != n.kind.writable && n.Ready() && n.revents == {} && FifoFits(n.kind, c, evs)
    ensures Fold(n, evs).revents == FifoDue(n.kind, Bits(n.events), c, evs)
  {
    if evs != [] {
      var ev := evs[0];
      FedAllAppend(n.kind, Bits(n.events), n.Reading(), n.Progress(), [], ev);
      assert evs == [] + [ev];
      assert Erring(evs) <==> Errs(ev);
      if n.kind.readable {
        FifoReadReport(false, n.events, n.Reading(), c, n.Progress(), ev);
      } else {
        FifoWriteReport(n.events, c, n.Progress(), ev);
      }
    }
  }

  /** The completion pass is not for files that have told all. */
  lemma NothingMore(p: Pass, ds: seq<seq<KEvent>>, ev: seq<EpollEvent>, j: nat, who: seq<int>, full: bool, fd: int)
    requires Handled(p, ds, ev, j, who, full) && Named(p.told) && fd in p.told && Unseen(p.told[fd]) == {}
    ensures EventsOf(p.extra, fd) == []
  {
    var asked := AskedOf(p.told, who, full);
    AskedMeans(p.told, who, full);
    CompletionAsked(ds, asked);
    forall k | 0 <= k < |p.extra| && p.extra[k].File? ensures p.extra[k].fd != fd {
      assert FileKey(p.extra[k].fd, p.extra[k].ev.filter) in asked;
    }
    NoneOf(p.extra, fd);
  }

  /** The completion pass leaves level-triggered files alone unless the buffer was full. */
  lemma NothingExtra(p: Pass, ds: seq<seq<KEvent>>, ev: seq<EpollEvent>, j: nat, who: seq<int>, fd: int)
    requires Handled(p, ds, ev, j, who, false) && fd in p.told && !p.told[fd].edge
    requires Named(p.told)
    ensures EventsOf(p.extra, fd) == []
  {
    var asked := AskedOf(p.told, who, false);
    AskedMeans(p.told, who, false);
    CompletionAsked(ds, asked);
    forall k | 0 <= k < |p.extra| && p.extra[k].File? ensures p.extra[k].fd != fd {
      assert FileKey(p.extra[k].fd, p.extra[k].ev.filter) in asked;
    }
    NoneOf(p.extra, fd);
  }

  /** Altogether, over one round: a level-triggered socket or ordinary file that is in order,
      watched and with its closed ends known is reported exactly when epoll owes a report on its
      state, and the report is the one that is due, EPOLLERR apart; of the batch it is only
      assumed that the kqueue delivers by the filters that it has. */
  lemma RoundExact(p: Pass, ds: seq<seq<KEvent>>, ev: seq<EpollEvent>, j: nat, who: seq<int>, fd: int, c: Condition, pollOnly: bool)
    requires Handled(p, ds, ev, j, who, false) && Named(p.told)
    requires Folded(p.start.nodes, p.told, p.took) && SameFiles(p.start.nodes, p.told) && fd in p.start.nodes
    requires var n, w := p.start.nodes[fd], AtIn(p.start.queue, fd);
             && Apt(n.kind, n.events, c) && !n.edge && Fresh(n.Progress(), c)
             && Good(n, w, pollOnly, false) && !NoFilters(w) && Fits(p, fd, c)
    ensures ReportedExactly(p.start.nodes[fd], c, EventsOf(p.took, fd), fd, ev, j, who)
  {
    ToldExactly(p, fd, c);
    NothingExtra(p, ds, ev, j, who, fd);
  }

  /** A flag that an event of a filter has been seen comes from such an event. */
  lemma {:induction false} GotTold(kind: Kind, asked: Mask, p: Progress, evs: seq<Event>)
    ensures var q := FedAll(kind, asked, false, p, evs);
            && (q.got.read ==> p.got.read || Has(evs, Read)) && (q.got.write ==> p.got.write || Has(evs, Write))
    decreases |evs|
  {
    if evs != [] {
      GotTold(kind, asked, Fed(kind, asked, false, p, evs[0]), evs[1..]);
      HasFirst(evs, Read);
      HasFirst(evs, Write);
    }
  }

  lemma {:induction false} FedAllOn(kind: Kind, asked: Mask, p: Progress, evs: seq<Event>, more: seq<Event>)
    ensures FedAll(kind, asked, false, FedAll(kind, asked, false, p, evs), more) == FedAll(kind, asked, false, p, evs + more)
    decreases |evs|
  {
    if evs == [] {
      assert evs + more == more;
    } else {
      assert (evs + more)[1..] == evs[1..] + more;
      FedAllOn(kind, asked, Fed(kind, asked, false, p, evs[0]), evs[1..], more);
    }
  }

  /** The same with EPOLLET, for a file of which anything is reported: its events, and those that
      the completion pass gets of the filters that have not told yet, add up to what is due. */
  lemma EdgeRoundExact(p: Pass, ds: seq<seq<KEvent>>, ev: seq<EpollEvent>, j: nat, who: seq<int>, full: bool, fd: int, c: Condition)
    requires Handled(p, ds, ev, j, who, full) && Named(p.told)
    requires Folded(p.start.nodes, p.told, p.took) && SameFiles(p.start.nodes, p.told) && fd in p.start.nodes && fd in who
    requires var n := p.start.nodes[fd];
             && Apt(n.kind, n.events, c) && n.edge && Fresh(n.Progress(), c) && n.got == NO_FLAGS
             && (p.told[fd].has.read <==> n.Needs().read != Off) && (p.told[fd].has.write <==> n.Needs().write != Off)
             && FromFilters(n.Needs(), c, Plainly(EventsOf(p.took, fd))) && FromFilters(n.Needs(), c, Plainly(EventsOf(p.extra, fd)))
    requires forall f :: f != Except && Fires(c, f) && FileKey(fd, f) in AskedOf(p.told, who, full) ==> Has(EventsOf(p.extra, fd), f)
    ensures ReportedExactly(p.start.nodes[fd], c, EventsOf(p.took, fd) + EventsOf(p.extra, fd), fd, ev, j, who)
  {
    var n, took, extra := p.start.nodes[fd], EventsOf(p.took, fd), EventsOf(p.extra, fd);
    AskedMeans(p.told, who, full);
    GotTold(n.kind, Bits(n.events), n.Progress(), took);
    assert ModeOf(n.Needs(), Read) == n.Needs().read && ModeOf(n.Needs(), Write) == n.Needs().write;
    forall f | f != Except && ModeOf(n.Needs(), f) != Off && Fires(c, f) ensures Has(took, f) || Has(extra, f) {
      assert !Has(took, f) ==> FileKey(fd, f) in Unseen(p.told[fd]);
    }
    EdgeFed(n, p.told[fd], c, took, extra);
  }

  lemma EdgeFed(n: Node, m: Node, c: Condition, took: seq<Event>, extra: seq<Event>)
    requires Apt(n.kind, n.events, c) && n.edge && Fresh(n.Progress(), c) && Kept(n, m) && m.Progress() == Fold(n, took)
    requires FromFilters(n.Needs(), c, Plainly(took)) && FromFilters(n.Needs(), c, Plainly(extra))
    requires forall f :: f != Except && ModeOf(n.Needs(), f) != Off && Fires(c, f) ==> Has(took, f) || Has(extra, f)
    ensures FedNode(m, extra).revents == ReportDue(n.kind, n.events, c, took + extra) && m.revents <= FedNode(m, extra).revents
  {
    EdgeTold(n, c, took, extra);
    FedGrowsOn(n.kind, Bits(n.events), n.Progress(), took);
    FedGrowsOn(n.kind, Bits(n.events), m.Progress(), extra);
  }

  /** Events of registered filters that tell of the state. */
  predicate FromFilters(n: Needed, c: Condition, evs: seq<Event>) {
    forall k :: 0 <= k < |evs| ==> Tells(c, evs[k]) && ModeOf(n, evs[k].filter) != Off
  }

  /** A report only grows. */
  lemma {:induction false} FedGrowsOn(kind: Kind, asked: Mask, p: Progress, evs: seq<Event>)
    requires p.revents <= Reportable(asked)
    ensures p.revents <= FedAll(kind, asked, false, p, evs).revents <= Reportable(asked)
    decreases |evs|
  {
    if evs != [] {
      FedGrows(kind, asked, false, p, evs[0]);
      FedGrowsOn(kind, asked, Fed(kind, asked, false, p, evs[0]), evs[1..]);
    }
  }

  lemma EdgeTold(n: Node, c: Condition, took: seq<Event>, extra: seq<Event>)
    requires Apt(n.kind, n.events, c) && n.edge && Fresh(n.Progress(), c)
    requires FromFilters(n.Needs(), c, Plainly(took)) && FromFilters(n.Needs(), c, Plainly(extra))
    requires forall f :: f != Except && ModeOf(n.Needs(), f) != Off && Fires(c, f) ==> Has(took, f) || Has(extra, f)
    ensures FedNode(n, took + extra).revents == ReportDue(n.kind, n.events, c, took + extra)
    ensures FedAll(n.kind, Bits(n.events), false, Fold(n, took), extra) == Fold(n, took + extra)
  {
    forall f | Has(took, f) || Has(extra, f) ensures Has(took + extra, f) {
      if Has(took, f) {
        var k :| 0 <= k < |took| && took[k].filter == f;
        assert (took + extra)[k].filter == f;
      } else {
        var k :| 0 <= k < |extra| && extra[k].filter == f;
        assert (took + extra)[|took| + k].filter == f;
      }
    }
    PlainlyOn(took, extra);
    forall f | f != Except && ModeOf(n.Needs(), f) != Off && Fires(c, f) ensures Has(Plainly(took + extra), f) {
      PlainlyHas(took + extra, f);
    }
    EdgeReport(n.kind, n.events, c, n.Progress(), took + extra);
    FedAllOn(n.kind, Bits(n.events), n.Progress(), took, extra);
  }

  /** The states of a file at the rounds of a wait: its ends stay as they are. */
  ghost predicate Steady(kind: Kind, events: Wanted, eof: Eof, cs: nat -> Condition) {
    forall k :: Apt(kind, events, cs(k)) && cs(k).eof == eof
  }

  /** Round by round a file that is in order stays so, and its closed ends known, as long as its
      batches fit its filters and its ends stay as they are. */
  lemma {:induction false} StaysKnown(was: map<int, Node>, wasQueue: map<int, Watched>, h: seq<Pass>, fd: int,
                                      cs: nat -> Condition, k: nat)
    requires k < |h| && fd in was && was[fd].Leveled() && Exact(was[fd], AtIn(wasQueue, fd))
    requires forall i :: 0 <= i <= k ==> ExactKept(was, wasQueue, h[i].start.nodes, h[i].start.queue)
    requires forall i :: 0 <= i < k ==> Folded(h[i].start.nodes, h[i].told, h[i].took) && SameFiles(h[i].start.nodes, h[i].told)
    requires forall i :: 0 <= i < k ==> Resting(h[i].told) && h[i + 1].start.nodes == h[i].told && Fits(h[i], fd, cs(i))
    requires fd in h[0].start.nodes && h[0].start.nodes[fd] == was[fd] && was[fd].revents == {}
    requires forall i :: 0 <= i <= k ==> Apt(was[fd].kind, was[fd].events, cs(i)) && cs(i).eof == was[fd].eof
    ensures fd in h[k].start.nodes && Kept(was[fd], h[k].start.nodes[fd]) && Fresh(h[k].start.nodes[fd].Progress(), cs(k))
    ensures Exact(h[k].start.nodes[fd], AtIn(h[k].start.queue, fd))
    decreases k
  {
    if k > 0 {
      StaysKnown(was, wasQueue, h, fd, cs, k - 1);
      assert h[k - 1 + 1].start.nodes == h[k - 1].told && Fits(h[k - 1], fd, cs(k - 1));
      assert Apt(was[fd].kind, was[fd].events, cs(k - 1)) && cs(k).eof == cs(k - 1).eof;
      KnownNext(was, wasQueue, h[k - 1], h[k].start, fd, cs(k - 1));
    } else {
      assert ExactKept(was, wasQueue, h[0].start.nodes, h[0].start.queue);
    }
  }

  lemma KnownNext(was: map<int, Node>, wasQueue: map<int, Watched>, p: Pass, next: Start, fd: int, c: Condition)
    requires fd in was && was[fd].Leveled() && Exact(was[fd], AtIn(wasQueue, fd)) && ExactKept(was, wasQueue, next.nodes, next.queue)
    requires Folded(p.start.nodes, p.told, p.took) && SameFiles(p.start.nodes, p.told) && next.nodes == p.told && Resting(p.told)
    requires fd in p.start.nodes && Kept(was[fd], p.start.nodes[fd]) && Fresh(p.start.nodes[fd].Progress(), c)
    requires Exact(p.start.nodes[fd], AtIn(p.start.queue, fd)) && Fits(p, fd, c) && Apt(was[fd].kind, was[fd].events, c)
    ensures fd in next.nodes && Kept(was[fd], next.nodes[fd]) && next.nodes[fd].eof == c.eof && next.nodes[fd].revents == {}
    ensures Exact(next.nodes[fd], AtIn(next.queue, fd))
  {
    ToldExactly(p, fd, c);
    assert Kept(p.start.nodes[fd], p.told[fd]);
  }

  /** Over a whole wait in which no call fails: such a file is reported as its state at the last
      round asks for, however often the wait has looked before. */
  lemma WaitExact(was: map<int, Node>, wasQueue: map<int, Watched>, h: seq<Pass>, ds: seq<seq<KEvent>>, cnt: int,
                  ev: seq<EpollEvent>, j: nat, who: seq<int>, fd: int, cs: nat -> Condition)
    requires History(h, ds, cnt, ev, j, who, false)
    requires forall k :: 0 <= k < |h| ==> Folded(h[k].start.nodes, h[k].told, h[k].took)
    requires forall k :: 0 <= k < |h| ==> ExactKept(was, wasQueue, h[k].start.nodes, h[k].start.queue)
    requires fd in was && was[fd].Leveled() && was[fd].revents == {}
    requires Exact(was[fd], AtIn(wasQueue, fd))
    requires fd in h[0].start.nodes && h[0].start.nodes[fd] == was[fd]
    requires forall k :: 0 <= k < |h| ==> Apt(was[fd].kind, was[fd].events, cs(k)) && cs(k).eof == was[fd].eof
    requires forall k :: 0 <= k < |h| ==> Fits(h[k], fd, cs(k))
    ensures ReportedExactly(was[fd], cs(|h| - 1), EventsOf(h[|h| - 1].took, fd), fd, ev, j, who)
    ensures var last := h[|h| - 1];
            fd in last.told && FedNode(last.told[fd], EventsOf(last.extra, fd)) == last.told[fd] && last.told[fd].eof == was[fd].eof
  {
    var last := |h| - 1;
    StaysKnown(was, wasQueue, h, fd, cs, last);
    ToldExactly(h[last], fd, cs(last));
    assert Named(h[last].told);
    NothingExtra(h[last], Left(ds, |h|), ev, j, who, fd);
  }

  // ---- the wait ----

  /** What poll is asked: the kqueue first, then the listed files, with what is wanted of them. */
  ghost predicate Asking(slots: seq<PollFd>, kq: int, list: seq<int>, nodes: map<int, Node>) {
    && |list| < |slots| && slots[0].fd == kq && slots[0].events == NO_EVENTS.(input := true)
    && forall k :: 0 <= k < |list| ==>
         list[k] in nodes && slots[1 + k].fd == list[k] && slots[1 + k].events == nodes[list[k]].events
  }

  /** Nothing is found in the first `len` slots. */
  predicate Silent(slots: seq<PollFd>, len: nat) {
    len <= |slots| && forall k :: 0 <= k < len ==> slots[k].revents == {} && !slots[k].invalid
  }

  /** The files of the first `i` slots of a list that poll found invalid are gone, and no others. */
  ghost predicate Swept(was: map<int, Node>, now: map<int, Node>, list: seq<int>, slots: seq<PollFd>, i: nat) {
    && i <= |list| < |slots|
    && now.Keys <= was.Keys && (forall fd :: fd in now ==> now[fd] == was[fd])
    && forall fd :: fd in was ==> (fd in now <==> !exists k :: 0 <= k < i && list[k] == fd && slots[1 + k].invalid)
  }

  /** The files of the first `i` slots that poll found ready have an active user event. */
  ghost predicate Active(list: seq<int>, slots: seq<PollFd>, i: nat, queue: map<int, Watched>) {
    && i <= |list| < |slots|
    && forall k :: 0 <= k < i && !slots[1 + k].invalid && slots[1 + k].revents != {} ==> AtIn(queue, list[k]).active
  }

  lemma SweptSettings(was: map<int, Node>, mid: map<int, Node>, now: map<int, Node>, list: seq<int>, slots: seq<PollFd>)
    requires Swept(was, mid, list, slots, |list|) && SameSettings(mid, now)
    ensures SubSettings(was, now, list)
  {
  }

  lemma SweptStep(was: map<int, Node>, mid: map<int, Node>, now: map<int, Node>, list: seq<int>, slots: seq<PollFd>, i: nat)
    requires Swept(was, mid, list, slots, i) && i < |list|
    requires now == if slots[1 + i].invalid then mid - {list[i]} else mid
    ensures Swept(was, now, list, slots, i + 1)
  {
  }

  type Count = c: int | 1 <= c <= INT_MAX witness 1

  datatype EpollCall =
    | CtlCall(op: Op, fd: int, hasDesc: bool, r: Request, stat: Stat, memory: bool)
    | CloseCall(fd: int)
    | WaitCall(cnt: Count, memory: bool, kevsMemory: bool)
    | EnterCall(memory: bool)
    | LeaveCall(t: nat)
    | OpenCall(fd: int, pollOnly: bool)

  /** How many kevents to ask for, unless that overflows: enough for every file, and some for the
      notification of pollers, when the caller has room for every file. */
  function Enlarged(cnt: int, size: int): int { if cnt >= size then (cnt + 1) * 3 else cnt }
}
