/** What an epoll descriptor asks a kqueue to watch for one file, and what it makes of the
    events the kqueue returns.  macOS's constants and filters are used. */
module EpollFilters {

  /** The bits 0x1, 0x2, 0x4, 0x8, 0x10 and 0x2000 of a mask of poll events. */
  datatype Bit = IN | PRI | OUT | ERR | HUP | RDHUP

  type Mask = set<Bit>

  function If(c: bool, m: Mask): Mask { if c then m else {} }

  /** The bits that a caller can ask for. */
  datatype Wanted = Wanted(input: bool, urgent: bool, output: bool, halfHangUp: bool)

  const NO_EVENTS := Wanted(false, false, false, false)

  function Bits(w: Wanted): Mask {
    If(w.input, {IN}) + If(w.urgent, {PRI}) + If(w.output, {OUT}) + If(w.halfHangUp, {RDHUP})
  }

  const PIPE_BUF: int := 512

  datatype Kind = Fifo(readable: bool, writable: bool) | Socket | KQueue | Ordinary | PollOnly

  /** Which ends of the file are known to be closed. */
  datatype Eof = Eof(read: bool, write: bool)

  const OPEN := Eof(false, false)
  const CLOSED := Eof(true, true)

  /** How a filter is registered: not at all, so that it fires as long as its condition holds,
      or with EV_CLEAR, so that it fires when its condition changes. */
  datatype Mode = Off | Level | Clear

  datatype Needed = Needed(read: Mode, write: Mode, except: Mode)
  {
    /** The read and write filters, which are registered anew when they change. */
    function Filters(): (Mode, Mode) { (read, write) }
  }

  /** The part of a registered file that decides its filters. */
  datatype Interest = Interest(kind: Kind, events: Wanted, edge: bool, eof: Eof)

  function Asked(wanted: bool): Mode { if wanted then Level else Off }

  function LevelIf(c: bool): Mode { if c then Level else Clear }

  predicate OnlyInOut(events: Wanted) { !events.urgent && !events.halfHangUp }

  /** Only sockets keep EPOLLRDHUP and EPOLLPRI; a FIFO was opened for something; nothing
      reports the end of a kqueue. */
  predicate Proper(i: Interest) {
    && (i.kind.Socket? || OnlyInOut(i.events))
    && (i.kind.Fifo? ==> i.kind.readable || i.kind.writable)
    && (i.kind.KQueue? ==> i.eof == OPEN)
  }

  // ---- the filters a file needs ----

  function NeededFilters(i: Interest): Needed {
    var n :=
      match i.kind
      case Fifo(readable, writable) => NeededFifo(readable, writable, i.events, i.eof)
      case KQueue => Needed(LevelIf(i.events.input), Off, Off)
      case Socket => NeededSocket(i.events, i.eof)
      case _ =>
        Needed(if i.events == NO_EVENTS then LevelIf(i.eof != OPEN) else Asked(i.events.input), Asked(i.events.output), Off);
    if i.edge then Needed(EdgeMode(n.read), EdgeMode(n.write), EdgeMode(n.except)) else n
  }

  function EdgeMode(m: Mode): Mode { if m == Off then Off else Clear }

  function NeededFifo(readable: bool, writable: bool, events: Wanted, eof: Eof): Needed {
    var r, w := Asked(events.input), Asked(events.output);
    if readable && writable then
      Needed(if events == NO_EVENTS then LevelIf(eof != OPEN) else r, w, Off)
    else if readable then
      Needed(if r == Off then LevelIf(eof != OPEN) else r, Off, Off)
    else
      Needed(Off, if w == Off then LevelIf(eof != OPEN) else w, Off)
  }

  function NeededSocket(events: Wanted, eof: Eof): Needed {
    var r0 := Asked(events.input);
    var r1 := if r0 == Off && events.halfHangUp then LevelIf(eof.read) else r0;
    var w1 := Asked(events.output);
    // with both ends closed, one filter that fires at its level drives the report
    var r2 := if eof == CLOSED && r1 != Level && w1 != Level then Level else r1;
    var w2 := if eof == CLOSED && r2 != Off then Off else w1;
    // something has to notice the hang-up
    var r3 := if eof == OPEN && r2 == Off && w2 == Off then Clear else r2;
    var w3 := if eof == Eof(true, false) && w2 == Off then Clear else w2;
    var r4 := if eof == Eof(false, true) && r3 == Off then Clear else r3;
    Needed(r4, w3, Asked(events.urgent))
  }

  /** The choice is never empty, and asks only for what the file can do. */
  lemma NeverEmpty(i: Interest)
    requires Proper(i)
    ensures var n := NeededFilters(i);
            && (n.read != Off || n.write != Off)
            && (i.kind.KQueue? ==> n.write == Off)
            && (i.kind.Fifo? ==> (n.read != Off ==> i.kind.readable) && (n.write != Off ==> i.kind.writable))
            && (n.except != Off ==> i.kind.Socket?)
            && (i.edge ==> n.read != Level && n.write != Level)
            && (i.edge ==> var m := NeededFilters(i.(edge := false)); (n.read == Off <==> m.read == Off) && (n.write == Off <==> m.write == Off))
  {
  }

  // ---- what an event does to a file ----

  datatype Filter = Read | Write | Except

  /** An event of one of the file's filters.  `fflags` and `error` say whether those were set,
      and `urgent` whether a second look confirmed out-of-band data. */
  datatype Event = Event(filter: Filter, eof: bool, fflags: bool, error: bool, data: int, urgent: bool)

  /** The part of a registered file that events change. */
  datatype Progress = Progress(eof: Eof, revents: Mask, got: Flags)

  datatype Flags = Flags(read: bool, write: bool, except: bool)

  const NO_FLAGS := Flags(false, false, false)

  function Reportable(asked: Mask): Mask { asked + {HUP, ERR} }

  function EofAfter(kind: Kind, eof: Eof, ev: Event): Eof {
    if ev.filter == Except then eof
    else if !kind.Socket? then (if ev.eof then CLOSED else OPEN)
    else if ev.filter == Read then Eof(ev.eof, eof.write)
    else Eof(eof.read, ev.eof)
  }

  /** What the known ends of the file add to a report. */
  function EofBits(kind: Kind, eof: Eof, filter: Filter): Mask {
    if eof == OPEN then {}
    else if kind.Socket? then If(eof.read, {IN, RDHUP}) + If(eof.write, {OUT}) + If(eof == CLOSED, {HUP})
    else if kind.Fifo? && filter == Write then {ERR}
    else {HUP}
  }

  function ReadyBit(ev: Event): Mask {
    match ev.filter
    case Read => {IN}
    case Write => {OUT}
    case Except => If(ev.urgent, {PRI})
  }

  /** A FIFO at its end reports only what can still be transferred. */
  predicate Spent(kind: Kind, eof: Eof, ev: Event) {
    && kind.Fifo? && eof != OPEN
    && (ev.filter == Read ==> ev.data == 0) && (ev.filter == Write ==> ev.data < PIPE_BUF)
  }

  function Reported(kind: Kind, eof: Eof, ev: Event): Mask {
    if ev.filter == Except then ReadyBit(ev)
    else
      If(!Spent(kind, eof, ev), ReadyBit(ev)) + If(ev.error || (ev.eof && ev.fflags), {ERR}) + EofBits(kind, eof, ev.filter)
  }

  function GotAfter(got: Flags, filter: Filter): Flags {
    match filter
    case Read => Flags(true, got.write, got.except)
    case Write => Flags(got.read, true, got.except)
    case Except => Flags(got.read, got.write, true)
  }

  /** One event; `reading` says that a FIFO also has its read filter, which then reports the
      end on its own. */
  function Fed(kind: Kind, asked: Mask, reading: bool, p: Progress, ev: Event): Progress {
    var eof := EofAfter(kind, p.eof, ev);
    if kind.Fifo? && ev.filter == Write && eof != OPEN && reading then
      Progress(eof, If(p.revents != {}, p.revents + {HUP}), p.got)
    else
      var revents := (p.revents + Reported(kind, eof, ev)) * Reportable(asked);
      Progress(eof, revents, if revents != {} then GotAfter(p.got, ev.filter) else p.got)
  }

  /** Reports stay inside what was asked for plus EPOLLHUP and EPOLLERR, and only grow. */
  lemma FedGrows(kind: Kind, asked: Mask, reading: bool, p: Progress, ev: Event)
    requires p.revents <= Reportable(asked)
    ensures var q := Fed(kind, asked, reading, p, ev);
            && q.revents <= Reportable(asked) && p.revents <= q.revents
            && (p.revents != {} ==> q.revents != {})
            && (kind.KQueue? && !ev.eof && p.eof == OPEN ==> q.eof == OPEN)
  {
  }

  // ---- sockets: the report is exactly what is due ----

  /** The true state of a file. */
  datatype Condition = Condition(readable: bool, writable: bool, eof: Eof)

  predicate Fires(c: Condition, filter: Filter) {
    match filter
    case Read => c.readable || c.eof.read
    case Write => c.writable || c.eof.write
    case Except => false
  }

  function ModeOf(n: Needed, filter: Filter): Mode {
    match filter
    case Read => n.read
    case Write => n.write
    case Except => n.except
  }

  /** What epoll promises to report for a socket in a state. */
  function Due(c: Condition): Mask {
    If(Fires(c, Read), {IN}) + If(Fires(c, Write), {OUT}) + If(c.eof.read, {RDHUP}) + If(c.eof == CLOSED, {HUP})
  }

  /** Some filter of a level-triggered socket keeps firing exactly while something is due: no
      report is missed, and a wait does not spin on one that is not due. */
  lemma SocketLevelExact(events: Wanted, c: Condition)
    ensures var n := NeededFilters(Interest(Socket, events, false, c.eof));
            (n.read == Level && Fires(c, Read)) || (n.write == Level && Fires(c, Write))
            <==> Due(c) * (Bits(events) + {HUP}) != {}
  {
  }

  /** An event as the kernel reports it for a file in a state. */
  predicate Tells(c: Condition, ev: Event) {
    match ev.filter
    case Read => Fires(c, Read) && ev.eof == c.eof.read
    case Write => Fires(c, Write) && ev.eof == c.eof.write
    case Except => false
  }

  /** A batch for one file: events of distinct filters that are registered and fire, and at
      least those of the filters that fire at their level. */
  predicate Batch(n: Needed, c: Condition, evs: seq<Event>) {
    && (forall k :: 0 <= k < |evs| ==> Tells(c, evs[k]) && ModeOf(n, evs[k].filter) != Off)
    && (forall k, l :: 0 <= k < l < |evs| ==> evs[k].filter != evs[l].filter)
    && (forall f :: f != Except && ModeOf(n, f) == Level && Fires(c, f) ==> Has(evs, f))
  }

  predicate Has(evs: seq<Event>, filter: Filter) { exists k :: 0 <= k < |evs| && evs[k].filter == filter }

  function FedAll(kind: Kind, asked: Mask, reading: bool, p: Progress, evs: seq<Event>): Progress
    decreases |evs|
  {
    if evs == [] then p else FedAll(kind, asked, reading, Fed(kind, asked, reading, p, evs[0]), evs[1..])
  }

  lemma {:induction false} FedAllAppend(kind: Kind, asked: Mask, reading: bool, p: Progress, evs: seq<Event>, ev: Event)
    ensures FedAll(kind, asked, reading, p, evs + [ev]) == Fed(kind, asked, reading, FedAll(kind, asked, reading, p, evs), ev)
    decreases |evs|
  {
    if evs == [] {
      assert [ev][1..] == [];
      assert FedAll(kind, asked, reading, Fed(kind, asked, reading, p, ev), []) == Fed(kind, asked, reading, p, ev);
    } else {
      assert (evs + [ev])[1..] == evs[1..] + [ev];
      FedAllAppend(kind, asked, reading, Fed(kind, asked, reading, p, evs[0]), evs[1..], ev);
    }
  }

  /** Nothing to report yet, and the closed ends known. */
  predicate Fresh(p: Progress, c: Condition) { p.eof == c.eof && p.revents == {} }

  /** The report of a level-triggered socket whose closed ends are known is, but for EPOLLERR,
      exactly what is due, in whatever order and with whatever further events it arrives. */
  lemma SocketReport(events: Wanted, c: Condition, p: Progress, evs: seq<Event>)
    requires Fresh(p, c) && Batch(NeededFilters(Interest(Socket, events, false, c.eof)), c, evs)
    ensures var q := FedAll(Socket, Bits(events), false, p, evs);
            q.eof == c.eof && q.revents - {ERR} == Due(c) * (Bits(events) + {HUP})
  {
    HasMeans(NeededFilters(Interest(Socket, events, false, c.eof)), c, evs);
    SocketBits(events, c, Has(evs, Read), Has(evs, Write));
    FedBits(Socket, Bits(events), c, p, evs);
  }

  lemma HasMeans(n: Needed, c: Condition, evs: seq<Event>)
    requires Batch(n, c, evs)
    ensures Covers(n, c, Has(evs, Read), Has(evs, Write))
  {
    assert ModeOf(n, Read) == n.read && ModeOf(n, Write) == n.write;
  }

  /** Whether a read and a write event may be the ones in a batch. */
  predicate Covers(n: Needed, c: Condition, r: bool, w: bool) {
    && (r ==> n.read != Off && Fires(c, Read)) && (n.read == Level && Fires(c, Read) ==> r)
    && (w ==> n.write != Off && Fires(c, Write)) && (n.write == Level && Fires(c, Write) ==> w)
  }

  lemma SocketBits(events: Wanted, c: Condition, r: bool, w: bool)
    requires Covers(NeededSocket(events, c.eof), c, r, w)
    ensures Joint(Socket, Bits(events), c, r, w) == Due(c) * (Bits(events) + {HUP})
  {
  }

  /** What a read event and a write event report together, without EPOLLERR. */
  function Joint(kind: Kind, asked: Mask, c: Condition, r: bool, w: bool): Mask {
    (If(r, Tell(kind, c, Read)) + If(w, Tell(kind, c, Write))) * (asked + {HUP})
  }

  /** A batch has no event, one, or one of either filter. */
  lemma AtMostTwo(n: Needed, c: Condition, evs: seq<Event>)
    requires Batch(n, c, evs)
    ensures |evs| <= 2
  {
    var f := i => if 0 <= i < |evs| then evs[i].filter else Except;
    assert |evs| > 2 ==> f(0) != f(1) && f(0) != f(2) && f(1) != f(2);
    assert forall k :: 0 <= k < |evs| ==> Tells(c, evs[k]) && evs[k].filter != Except;
  }

  /** What an event adds to the report, when the closed ends are known. */
  function Tell(kind: Kind, c: Condition, filter: Filter): Mask {
    (if filter == Read then {IN} else {OUT}) + EofBits(kind, c.eof, filter)
  }

  predicate Told(kind: Kind, c: Condition, ev: Event) {
    Tells(c, ev) && (kind.Socket? || (kind.Ordinary? && Uniform(c)))
  }

  /** The end of an ordinary file closes both ways. */
  predicate Uniform(c: Condition) { c.eof == OPEN || c.eof == CLOSED }

  lemma FedOne(kind: Kind, asked: Mask, c: Condition, p: Progress, ev: Event)
    requires p.eof == c.eof && Told(kind, c, ev) && p.revents <= Reportable(asked)
    ensures var q := Fed(kind, asked, false, p, ev);
            && q.eof == c.eof && q.revents <= Reportable(asked)
            && q.revents - {ERR} ==
               (p.revents - {ERR}) + Joint(kind, asked, c, ev.filter == Read, ev.filter == Write)
  {
    assert Reported(kind, c.eof, ev) - {ERR} == Tell(kind, c, ev.filter);
  }

  lemma {:induction false} FedBits(kind: Kind, asked: Mask, c: Condition, p: Progress, evs: seq<Event>)
    requires p.eof == c.eof && p.revents <= Reportable(asked) && forall k :: 0 <= k < |evs| ==> Told(kind, c, evs[k])
    ensures var q := FedAll(kind, asked, false, p, evs);
            && q.eof == c.eof && q.revents <= Reportable(asked)
            && q.revents - {ERR} == (p.revents - {ERR}) + Joint(kind, asked, c, Has(evs, Read), Has(evs, Write))
    decreases |evs|
  {
    if evs != [] {
      var r := evs[0].filter == Read;
      FedOne(kind, asked, c, p, evs[0]);
      FedBits(kind, asked, c, Fed(kind, asked, false, p, evs[0]), evs[1..]);
      HasFirst(evs, Read);
      HasFirst(evs, Write);
      JointUnion(kind, asked, c, r, evs[0].filter == Write, Has(evs[1..], Read), Has(evs[1..], Write));
    }
  }

  lemma HasFirst(evs: seq<Event>, f: Filter)
    requires evs != []
    ensures Has(evs, f) <==> evs[0].filter == f || Has(evs[1..], f)
  {
    if Has(evs, f) && evs[0].filter != f {
      var k :| 0 <= k < |evs| && evs[k].filter == f;
      assert evs[1..][k - 1].filter == f;
    } else if Has(evs[1..], f) {
      var k :| 0 <= k < |evs[1..]| && evs[1..][k].filter == f;
      assert evs[k + 1].filter == f;
    }
  }

  lemma JointUnion(kind: Kind, asked: Mask, c: Condition, r: bool, w: bool, s: bool, x: bool)
    ensures Joint(kind, asked, c, r, w) + Joint(kind, asked, c, s, x) == Joint(kind, asked, c, r || s, w || x)
  {
  }

  /** Whatever a socket's events tell, also with EPOLLET, they report nothing beyond what is due. */
  lemma {:induction false} SocketReportSound(asked: Mask, c: Condition, p: Progress, evs: seq<Event>)
    requires forall k :: 0 <= k < |evs| ==> Tells(c, evs[k])
    requires p.revents <= Due(c) + {ERR} && p.revents <= Reportable(asked)
    requires (p.eof.read ==> c.eof.read) && (p.eof.write ==> c.eof.write)
    ensures var q := FedAll(Socket, asked, false, p, evs);
            && q.revents <= Due(c) + {ERR} && q.revents <= Reportable(asked)
            && p.revents <= q.revents
    decreases |evs|
  {
    if evs != [] {
      FedSound(asked, c, p, evs[0]);
      SocketReportSound(asked, c, Fed(Socket, asked, false, p, evs[0]), evs[1..]);
    }
  }

  lemma FedSound(asked: Mask, c: Condition, p: Progress, ev: Event)
    requires Tells(c, ev) && p.revents <= Due(c) + {ERR} && p.revents <= Reportable(asked)
    requires (p.eof.read ==> c.eof.read) && (p.eof.write ==> c.eof.write)
    ensures var q := Fed(Socket, asked, false, p, ev);
            && q.revents <= Due(c) + {ERR} && q.revents <= Reportable(asked) && p.revents <= q.revents
            && (q.eof.read ==> c.eof.read) && (q.eof.write ==> c.eof.write)
  {
    assert Reported(Socket, EofAfter(Socket, p.eof, ev), ev) <= Due(c) + {ERR};
  }

  // ---- closed ends are found ----

  /** As long as not both ends are known to be closed, a filter is registered whose direction
      is not known to be: when the peer is gone that filter reports an end not yet known. */
  lemma UnknownEndIsWatched(events: Wanted, edge: bool, eof: Eof)
    requires eof != CLOSED
    ensures var n := NeededFilters(Interest(Socket, events, edge, eof));
            (n.read != Off && !eof.read) || (n.write != Off && !eof.write)
  {
  }

  /** With EPOLLRDHUP asked for, the read end is watched until it is known to be closed. */
  lemma ReadEndIsWatched(events: Wanted, edge: bool, eof: Eof)
    requires events.halfHangUp && !eof.read
    ensures NeededFilters(Interest(Socket, events, edge, eof)).read != Off
  {
  }

  /** An event of a socket whose peer is gone, of a registered filter whose direction is not
      yet known to be closed. */
  predicate Discovers(events: Wanted, edge: bool, eof: Eof, ev: Event) {
    && ev.eof
    && ((ev.filter == Read && !eof.read) || (ev.filter == Write && !eof.write))
    && ModeOf(NeededFilters(Interest(Socket, events, edge, eof)), ev.filter) != Off
  }

  /** So after two such events a hang-up is known and reported. */
  lemma HangUpIsReported(events: Wanted, edge: bool, p: Progress, first: Event, second: Event)
    requires p.eof == OPEN && Discovers(events, edge, p.eof, first)
    requires Discovers(events, edge, EofAfter(Socket, p.eof, first), second)
    ensures var q := FedAll(Socket, Bits(events), false, p, [first, second]);
            q.eof == CLOSED && HUP in q.revents
  {
    assert [first, second][1..] == [second];
    var p1 := Fed(Socket, Bits(events), false, p, first);
    assert FedAll(Socket, Bits(events), false, p1, [second]) == Fed(Socket, Bits(events), false, p1, second) by {
      assert [second][1..] == [];
    }
  }

  /** A batch that leaves out no closed end that is not known: its filter, unless it is off, has
      an event to tell, whether it fires at its level or, registered or not before the end was
      closed, has not told yet. */
  predicate Telling(n: Needed, c: Condition, known: Eof, evs: seq<Event>) {
    && Batch(n, c, evs)
    && (n.read != Off && c.eof.read && !known.read ==> Has(evs, Read))
    && (n.write != Off && c.eof.write && !known.write ==> Has(evs, Write))
  }

  /** No end is taken for closed that is not. */
  predicate Stale(known: Eof, c: Condition) { (known.read ==> c.eof.read) && (known.write ==> c.eof.write) }

  /** The ends known after a read and a write event, if there are such. */
  function Learnt(known: Eof, c: Condition, r: bool, w: bool): Eof {
    Eof(if r then c.eof.read else known.read, if w then c.eof.write else known.write)
  }

  /** Completeness from whatever was known of a level-triggered socket: the second of two rounds
      reports exactly what is due, EPOLLERR apart.  The first already does when all closed ends
      were known. */
  lemma SocketConverges(events: Wanted, c: Condition, p: Progress, first: seq<Event>, second: seq<Event>)
    requires Stale(p.eof, c) && p.revents == {}
    requires Telling(NeededFilters(Interest(Socket, events, false, p.eof)), c, p.eof, first)
    requires var q := FedAll(Socket, Bits(events), false, p, first);
             Telling(NeededFilters(Interest(Socket, events, false, q.eof)), c, q.eof, second)
    ensures var q := FedAll(Socket, Bits(events), false, p, first);
            && Stale(q.eof, c)
            && FedAll(Socket, Bits(events), false, Progress(q.eof, {}, NO_FLAGS), second).revents - {ERR} == Due(c) * (Bits(events) + {HUP})
  {
    var n := NeededFilters(Interest(Socket, events, false, p.eof));
    var q := FedAll(Socket, Bits(events), false, p, first);
    AtMostTwo(n, c, first);
    HasMeans(n, c, first);
    FedStale(Bits(events), c, p, first);
    var m := NeededFilters(Interest(Socket, events, false, q.eof));
    AtMostTwo(m, c, second);
    HasMeans(m, c, second);
    FedStale(Bits(events), c, Progress(q.eof, {}, NO_FLAGS), second);
    Converges(events, c, p.eof, Has(first, Read), Has(first, Write), Has(second, Read), Has(second, Write));
  }

  /** What at most one read and one write event of a socket report from stale knowledge. */
  function StaleReport(asked: Mask, c: Condition, known: Eof, r: bool, w: bool): Mask {
    if !r && !w then {}
    else (If(r, {IN}) + If(w, {OUT}) + EofBits(Socket, Learnt(known, c, r, w), Read)) * (asked + {HUP})
  }

  lemma FedStale(asked: Mask, c: Condition, p: Progress, evs: seq<Event>)
    requires Stale(p.eof, c) && p.revents == {} && |evs| <= 2
    requires forall k :: 0 <= k < |evs| ==> Tells(c, evs[k])
    requires forall k, l :: 0 <= k < l < |evs| ==> evs[k].filter != evs[l].filter
    ensures var q, r, w := FedAll(Socket, asked, false, p, evs), Has(evs, Read), Has(evs, Write);
            && q.eof == Learnt(p.eof, c, r, w) && Stale(q.eof, c)
            && q.revents - {ERR} == StaleReport(asked, c, p.eof, r, w)
  {
    if evs != [] {
      assert Has(evs, evs[0].filter);
      var p1 := Fed(Socket, asked, false, p, evs[0]);
      FedStaleOne(asked, c, p, evs[0]);
      if |evs| == 1 {
        assert FedAll(Socket, asked, false, p1, evs[1..]) == p1;
      } else {
        assert Has(evs, evs[1].filter);
        assert evs[1..][1..] == [];
        var p2 := Fed(Socket, asked, false, p1, evs[1]);
        FedStaleOne(asked, c, p1, evs[1]);
        assert FedAll(Socket, asked, false, p1, evs[1..]) == p2;
        StaleUnion(asked, c, p.eof, evs[0].filter == Read);
      }
    }
  }

  lemma FedStaleOne(asked: Mask, c: Condition, p: Progress, ev: Event)
    requires Stale(p.eof, c) && Tells(c, ev) && p.revents <= Reportable(asked)
    ensures var q, r := Fed(Socket, asked, false, p, ev), ev.filter == Read;
            && q.eof == Learnt(p.eof, c, r, !r) && Stale(q.eof, c) && q.revents <= Reportable(asked)
            && q.revents - {ERR} == (p.revents - {ERR}) + StaleReport(asked, c, p.eof, r, !r)
  {
    var r := ev.filter == Read;
    var eof := EofAfter(Socket, p.eof, ev);
    assert Reported(Socket, eof, ev) - {ERR} == If(r, {IN}) + If(!r, {OUT}) + EofBits(Socket, eof, Read);
  }

  lemma StaleUnion(asked: Mask, c: Condition, known: Eof, r: bool)
    requires Stale(known, c)
    ensures var eof := Learnt(known, c, r, !r);
            && Learnt(eof, c, !r, r) == Learnt(known, c, true, true)
            && StaleReport(asked, c, known, r, !r) + StaleReport(asked, c, eof, !r, r) == StaleReport(asked, c, known, true, true)
  {
  }

  /** The filters of a round, and those that an event of it adds, tell all that is due. */
  lemma Converges(events: Wanted, c: Condition, known: Eof, r1: bool, w1: bool, r2: bool, w2: bool)
    requires Stale(known, c) && Covers(NeededSocket(events, known), c, r1, w1)
    requires var n := NeededSocket(events, known);
             && (n.read != Off && c.eof.read && !known.read ==> r1) && (n.write != Off && c.eof.write && !known.write ==> w1)
    requires var eof := Learnt(known, c, r1, w1);
             var n := NeededSocket(events, eof);
             && Covers(n, c, r2, w2)
             && (n.read != Off && c.eof.read && !eof.read ==> r2) && (n.write != Off && c.eof.write && !eof.write ==> w2)
    ensures StaleReport(Bits(events), c, Learnt(known, c, r1, w1), r2, w2) == Due(c) * (Bits(events) + {HUP})
  {
  }

  // ---- other files ----

  function DueOrdinary(c: Condition): Mask {
    If(Fires(c, Read), {IN}) + If(Fires(c, Write), {OUT}) + If(c.eof == CLOSED, {HUP})
  }

  /** The same for a level-triggered ordinary file. */
  lemma OrdinaryLevelExact(events: Wanted, c: Condition)
    requires Uniform(c) && OnlyInOut(events)
    ensures var n := NeededFilters(Interest(Ordinary, events, false, c.eof));
            (n.read == Level && Fires(c, Read)) || (n.write == Level && Fires(c, Write))
            <==> DueOrdinary(c) * (Bits(events) + {HUP}) != {}
  {
  }

  lemma OrdinaryReport(events: Wanted, c: Condition, p: Progress, evs: seq<Event>)
    requires Uniform(c) && OnlyInOut(events)
    requires Fresh(p, c) && Batch(NeededFilters(Interest(Ordinary, events, false, c.eof)), c, evs)
    ensures var q := FedAll(Ordinary, Bits(events), false, p, evs);
            q.eof == c.eof && q.revents - {ERR} == DueOrdinary(c) * (Bits(events) + {HUP})
  {
    HasMeans(NeededFilters(Interest(Ordinary, events, false, c.eof)), c, evs);
    OrdinaryBits(events, c, Has(evs, Read), Has(evs, Write));
    FedBits(Ordinary, Bits(events), c, p, evs);
  }

  lemma OrdinaryBits(events: Wanted, c: Condition, r: bool, w: bool)
    requires Uniform(c) && OnlyInOut(events)
    requires Covers(NeededFilters(Interest(Ordinary, events, false, c.eof)), c, r, w)
    ensures Joint(Ordinary, Bits(events), c, r, w) == DueOrdinary(c) * (Bits(events) + {HUP})
  {
  }

  // ---- sockets and ordinary files alike ----

  /** What epoll promises to report for a file in a state, and for which files that is stated. */
  function DueOf(kind: Kind, c: Condition): Mask { if kind.Socket? then Due(c) else DueOrdinary(c) }

  predicate Apt(kind: Kind, events: Wanted, c: Condition) {
    kind.Socket? || (kind.Ordinary? && Uniform(c) && OnlyInOut(events))
  }

  /** What is due of a state and of the events that tell it: errors and out-of-band data are only
      in events. */
  function ReportDue(kind: Kind, events: Wanted, c: Condition, evs: seq<Event>): Mask {
    DueOf(kind, c) * (Bits(events) + {HUP}) + If(Erring(evs), {ERR}) + If(Urgent(evs), {PRI} * Bits(events))
  }

  predicate Errs(ev: Event) { ev.filter != Except && (ev.error || (ev.eof && ev.fflags)) }

  predicate Erring(evs: seq<Event>) { exists k :: 0 <= k < |evs| && Errs(evs[k]) }

  predicate Urgent(evs: seq<Event>) { exists k :: 0 <= k < |evs| && evs[k].filter == Except && evs[k].urgent }

  /** The events of the read and write filters. */
  function Plainly(evs: seq<Event>): seq<Event> {
    if evs == [] then []
    else (if evs[0].filter == Except then [] else [evs[0]]) + Plainly(evs[1..])
  }

  lemma SomeFirst(evs: seq<Event>)
    requires evs != []
    ensures Erring(evs) <==> Errs(evs[0]) || Erring(evs[1..])
    ensures Urgent(evs) <==> (evs[0].filter == Except && evs[0].urgent) || Urgent(evs[1..])
  {
    if k :| 0 <= k < |evs[1..]| && Errs(evs[1..][k]) {
      assert Errs(evs[k + 1]);
    }
    if k :| 0 < k < |evs| && Errs(evs[k]) {
      assert Errs(evs[1..][k - 1]);
    }
    if k :| 0 <= k < |evs[1..]| && evs[1..][k].filter == Except && evs[1..][k].urgent {
      assert evs[k + 1].filter == Except && evs[k + 1].urgent;
    }
    if k :| 0 < k < |evs| && evs[k].filter == Except && evs[k].urgent {
      assert evs[1..][k - 1].filter == Except && evs[1..][k - 1].urgent;
    }
  }

  /** EPOLLERR is reported if and only if an event of the read or write filter says so. */
  lemma {:induction false} ErrorTold(kind: Kind, asked: Mask, p: Progress, evs: seq<Event>)
    requires !kind.Fifo?
    ensures ERR in FedAll(kind, asked, false, p, evs).revents <==> ERR in p.revents || Erring(evs)
    decreases |evs|
  {
    if evs != [] {
      SomeFirst(evs);
      ErrorTold(kind, asked, Fed(kind, asked, false, p, evs[0]), evs[1..]);
    }
  }

  /** EPOLLPRI is reported if and only if it is asked for and an event has confirmed it. */
  lemma {:induction false} UrgentTold(kind: Kind, asked: Mask, p: Progress, evs: seq<Event>)
    requires !kind.Fifo? && p.revents <= Reportable(asked)
    ensures PRI in FedAll(kind, asked, false, p, evs).revents <==> PRI in p.revents || (PRI in asked && Urgent(evs))
    decreases |evs|
  {
    if evs != [] {
      SomeFirst(evs);
      UrgentTold(kind, asked, Fed(kind, asked, false, p, evs[0]), evs[1..]);
    }
  }

  /** The events of the third filter add nothing else. */
  lemma {:induction false} ExceptApart(kind: Kind, asked: Mask, p: Progress, p': Progress, evs: seq<Event>)
    requires !kind.Fifo? && p.eof == p'.eof && p.revents - {PRI} == p'.revents - {PRI}
    requires p.revents <= Reportable(asked) && p'.revents <= Reportable(asked)
    ensures var q, q' := FedAll(kind, asked, false, p, evs), FedAll(kind, asked, false, p', Plainly(evs));
            && q.eof == q'.eof && q.revents - {PRI} == q'.revents - {PRI} && q'.revents <= Reportable(asked)
    decreases |evs|
  {
    if evs != [] {
      var p1 := Fed(kind, asked, false, p, evs[0]);
      if evs[0].filter == Except {
        assert Plainly(evs) == Plainly(evs[1..]);
        ExceptApart(kind, asked, p1, p', evs[1..]);
      } else {
        assert Plainly(evs)[1..] == Plainly(evs[1..]);
        ApartStep(p.revents, p'.revents, Reported(kind, EofAfter(kind, p.eof, evs[0]), evs[0]), Reportable(asked));
        ExceptApart(kind, asked, p1, Fed(kind, asked, false, p', evs[0]), evs[1..]);
      }
    }
  }

  lemma ApartStep(a: Mask, b: Mask, more: Mask, kept: Mask)
    requires a - {PRI} == b - {PRI}
    ensures (a + more) * kept - {PRI} == (b + more) * kept - {PRI}
  {
    forall x ensures x in (a + more) * kept - {PRI} <==> x in (b + more) * kept - {PRI} {
      assert x in a - {PRI} <==> x in b - {PRI};
    }
  }

  /** So the report is exact once what the read and write filters tell is. */
  lemma ReportExactly(kind: Kind, events: Wanted, c: Condition, p: Progress, evs: seq<Event>)
    requires Apt(kind, events, c) && Fresh(p, c)
    requires var q := FedAll(kind, Bits(events), false, p, Plainly(evs));
             q.eof == c.eof && q.revents - {ERR} == DueOf(kind, c) * (Bits(events) + {HUP})
    ensures var q := FedAll(kind, Bits(events), false, p, evs);
            q.eof == c.eof && q.revents == ReportDue(kind, events, c, evs)
  {
    ErrorTold(kind, Bits(events), p, evs);
    UrgentTold(kind, Bits(events), p, evs);
    ExceptApart(kind, Bits(events), p, p, evs);
    var q, q' := FedAll(kind, Bits(events), false, p, evs), FedAll(kind, Bits(events), false, p, Plainly(evs));
    forall b ensures b in q.revents <==> b in ReportDue(kind, events, c, evs) {
      assert b != PRI ==> (b in q.revents <==> b in q.revents - {PRI}) && (b in q'.revents <==> b in q'.revents - {PRI});
      assert b != ERR ==> (b in q'.revents <==> b in q'.revents - {ERR});
    }
  }

  lemma FileReport(kind: Kind, events: Wanted, c: Condition, p: Progress, evs: seq<Event>)
    requires Apt(kind, events, c) && Fresh(p, c) && Batch(NeededFilters(Interest(kind, events, false, c.eof)), c, Plainly(evs))
    ensures var q := FedAll(kind, Bits(events), false, p, evs);
            q.eof == c.eof && q.revents == ReportDue(kind, events, c, evs)
  {
    if kind.Socket? {
      SocketReport(events, c, p, Plainly(evs));
    } else {
      OrdinaryReport(events, c, p, Plainly(evs));
    }
    ReportExactly(kind, events, c, p, evs);
  }

  /** Events of registered filters that fire, from each such filter at least one. */
  predicate Exhaustive(n: Needed, c: Condition, evs: seq<Event>) {
    && (forall k :: 0 <= k < |evs| ==> Tells(c, evs[k]) && ModeOf(n, evs[k].filter) != Off)
    && (forall f :: f != Except && ModeOf(n, f) != Off && Fires(c, f) ==> Has(evs, f))
  }

  /** With EPOLLET too the report is exactly what is due, once every filter that fires has told. */
  lemma EdgeReport(kind: Kind, events: Wanted, c: Condition, p: Progress, evs: seq<Event>)
    requires Apt(kind, events, c) && Fresh(p, c) && Exhaustive(NeededFilters(Interest(kind, events, true, c.eof)), c, Plainly(evs))
    ensures var q := FedAll(kind, Bits(events), false, p, evs);
            q.eof == c.eof && q.revents == ReportDue(kind, events, c, evs)
  {
    EdgePlainReport(kind, events, c, p, Plainly(evs));
    ReportExactly(kind, events, c, p, evs);
  }

  lemma EdgePlainReport(kind: Kind, events: Wanted, c: Condition, p: Progress, evs: seq<Event>)
    requires Apt(kind, events, c) && Fresh(p, c) && Exhaustive(NeededFilters(Interest(kind, events, true, c.eof)), c, evs)
    ensures var q := FedAll(kind, Bits(events), false, p, evs);
            q.eof == c.eof && q.revents - {ERR} == DueOf(kind, c) * (Bits(events) + {HUP})
  {
    var n, m := NeededFilters(Interest(kind, events, false, c.eof)), NeededFilters(Interest(kind, events, true, c.eof));
    var r, w := Has(evs, Read), Has(evs, Write);
    assert ModeOf(m, Read) == m.read && ModeOf(m, Write) == m.write;
    assert Covers(n, c, r, w);
    if kind.Socket? {
      SocketBits(events, c, r, w);
    } else {
      OrdinaryBits(events, c, r, w);
    }
    FedBits(kind, Bits(events), c, p, evs);
  }

  lemma {:induction false} PlainlyOn(evs: seq<Event>, more: seq<Event>)
    ensures Plainly(evs + more) == Plainly(evs) + Plainly(more)
    decreases |evs|
  {
    if evs == [] {
      assert evs + more == more;
    } else {
      assert (evs + more)[1..] == evs[1..] + more;
      PlainlyOn(evs[1..], more);
    }
  }

  lemma {:induction false} PlainlyHas(evs: seq<Event>, f: Filter)
    requires f != Except
    ensures Has(Plainly(evs), f) <==> Has(evs, f)
    decreases |evs|
  {
    if evs != [] {
      HasFirst(evs, f);
      PlainlyHas(evs[1..], f);
      if evs[0].filter == Except {
        assert Plainly(evs) == Plainly(evs[1..]);
      } else {
        HasFirst(Plainly(evs), f);
        assert Plainly(evs)[1..] == Plainly(evs[1..]);
      }
    }
  }

  // ---- kqueues ----

  /** The read filter of a level-triggered kqueue keeps firing exactly while EPOLLIN is due. */
  lemma KQueueLevelExact(events: Wanted, readable: bool)
    ensures var n := NeededFilters(Interest(KQueue, events, false, OPEN));
            && n.read != Off && n.write == Off && n.except == Off
            && (n.read == Level && readable <==> If(readable, {IN}) * Bits(events) != {})
  {
  }

  /** So does that of a kqueue which is none of this library: it reports EPOLLIN, and errors. */
  lemma KQueueReport(events: Wanted, ev: Event)
    requires ev.filter == Read && !ev.eof
    ensures Fed(KQueue, Bits(events), false, Progress(OPEN, {}, NO_FLAGS), ev).revents
            == {IN} * Bits(events) + If(Errs(ev), {ERR})
  {
  }

  // ---- FIFOs ----

  /** The true state of a FIFO: what can be read, what can be written, and whether nobody has the
      other end open. */
  datatype Pipe = Pipe(bytes: nat, room: nat, alone: bool)

  function PipeEof(c: Pipe): Eof { if c.alone then CLOSED else OPEN }

  predicate PipeFires(c: Pipe, filter: Filter) {
    match filter
    case Read => c.bytes > 0 || c.alone
    case Write => c.room >= 512 || c.alone
    case Except => false
  }

  /** An event as the kernel reports it for a FIFO in a state. */
  predicate PipeTells(c: Pipe, ev: Event) {
    && PipeFires(c, ev.filter) && ev.eof == c.alone
    && ev.data == if ev.filter == Read then c.bytes else c.room
  }

  /** What epoll promises for the end that reads, and for the end that writes. */
  function DueReader(c: Pipe): Mask { If(c.bytes > 0, {IN}) + If(c.alone, {HUP}) }

  function DueWriter(c: Pipe): Mask { If(c.room >= 512, {OUT}) + If(c.alone, {ERR}) }

  /** The filter of a level-triggered FIFO keeps firing exactly while something is due. */
  lemma FifoLevelExact(events: Wanted, c: Pipe)
    ensures var n := NeededFilters(Interest(Fifo(true, false), events, false, PipeEof(c)));
            && n.write == Off
            && (n.read == Level && PipeFires(c, Read) <==> DueReader(c) * (Bits(events) + {HUP}) != {})
    ensures var n := NeededFilters(Interest(Fifo(false, true), events, false, PipeEof(c)));
            && n.read == Off
            && (n.write == Level && PipeFires(c, Write) <==> DueWriter(c) * (Bits(events) + {ERR}) != {})
  {
  }

  /** The reading end reports data and the end of it. */
  lemma FifoReadReport(writable: bool, events: Wanted, reading: bool, c: Pipe, p: Progress, ev: Event)
    requires p.revents == {} && ev.filter == Read && PipeTells(c, ev)
    ensures var q := Fed(Fifo(true, writable), Bits(events), reading, p, ev);
            && q.eof == PipeEof(c) && q.revents == DueReader(c) * (Bits(events) + {HUP}) + If(Errs(ev), {ERR})
  {
  }

  /** The writing end reports room for a whole PIPE_BUF, and that nobody reads. */
  lemma FifoWriteReport(events: Wanted, c: Pipe, p: Progress, ev: Event)
    requires p.revents == {} && ev.filter == Write && PipeTells(c, ev)
    ensures var q := Fed(Fifo(false, true), Bits(events), false, p, ev);
            && q.eof == PipeEof(c) && q.revents == DueWriter(c) * (Bits(events) + {ERR}) + If(Errs(ev), {ERR})
  {
  }

  /** A FIFO open for both reports both ways as long as it has another end; at its end only the
      read filter counts, whichever event comes first. */
  lemma FifoBothReport(events: Wanted, c: Pipe, p: Progress, r: Event, w: Event)
    requires p.revents == {} && r.filter == Read && w.filter == Write && PipeTells(c, r) && PipeTells(c, w)
    ensures FedAll(Fifo(true, true), Bits(events), true, p, [r, w]).revents == DueBoth(events, c, r, w)
    ensures FedAll(Fifo(true, true), Bits(events), true, p, [w, r]).revents == DueBoth(events, c, r, w)
  {
    var k, asked := Fifo(true, true), Bits(events);
    Two(k, asked, p, r, w);
    Two(k, asked, p, w, r);
    ReadThenWrite(events, c, p, r, w);
    WriteThenRead(events, c, p, r, w);
  }

  function DueBoth(events: Wanted, c: Pipe, r: Event, w: Event): Mask {
    (if c.alone then DueReader(c) else {IN, OUT}) * (Bits(events) + {HUP}) + If(Errs(r) || (Errs(w) && !c.alone), {ERR})
  }

  lemma Two(kind: Kind, asked: Mask, p: Progress, ev: Event, next: Event)
    ensures FedAll(kind, asked, true, p, [ev, next]) == Fed(kind, asked, true, Fed(kind, asked, true, p, ev), next)
  {
    FedAllAppend(kind, asked, true, p, [], ev);
    FedAllAppend(kind, asked, true, p, [ev], next);
    assert [] + [ev] == [ev] && [ev] + [next] == [ev, next];
  }

  lemma ReadThenWrite(events: Wanted, c: Pipe, p: Progress, r: Event, w: Event)
    requires p.revents == {} && r.filter == Read && w.filter == Write && PipeTells(c, r) && PipeTells(c, w)
    ensures var k, asked := Fifo(true, true), Bits(events);
            Fed(k, asked, true, Fed(k, asked, true, p, r), w).revents == DueBoth(events, c, r, w)
  {
    var k, asked := Fifo(true, true), Bits(events);
    FifoReadReport(true, events, true, c, p, r);
    var q := Fed(k, asked, true, p, r);
    if c.alone {
      assert HUP in q.revents;
    } else {
      assert Reported(k, OPEN, w) == {OUT} + If(Errs(w), {ERR});
    }
  }

  lemma WriteThenRead(events: Wanted, c: Pipe, p: Progress, r: Event, w: Event)
    requires p.revents == {} && r.filter == Read && w.filter == Write && PipeTells(c, r) && PipeTells(c, w)
    ensures var k, asked := Fifo(true, true), Bits(events);
            Fed(k, asked, true, Fed(k, asked, true, p, w), r).revents == DueBoth(events, c, r, w)
  {
    var k, asked := Fifo(true, true), Bits(events);
    var q := Fed(k, asked, true, p, w);
    if c.alone {
      FifoReadReport(true, events, true, c, q, r);
    } else {
      assert q.revents == ({OUT} + If(Errs(w), {ERR})) * Reportable(asked);
      assert Reported(k, OPEN, r) == {IN} + If(Errs(r), {ERR});
    }
  }
}
