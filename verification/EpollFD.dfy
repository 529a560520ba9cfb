/** The epoll descriptor: its registered files, the list of those that only poll can watch,
    its kqueue, and the operations that keep them in step. */
module EpollFDs {
  import opened Collections
  import opened EpollFilters
  import opened EpollNodes

  class EpollFD {
    const kq: int
    const kernel: Kernel
    /** The list of files that only poll can watch. */
    var pollFds: seq<int>
    var pollFdsSize: int
    /** The tree of registered nodes, by file. */
    var registered: map<int, Node>
    var registeredSize: int
    var kevsLength: int
    var pfds: array<PollFd>

    /** The arrays that threads in their ppoll call wait on, `nr_polling_threads` of them. */
    var polling: seq<seq<PollFd>>

    /** Level-triggered nodes whose ends were found open or closed by the completion pass. */
    ghost var drifted: set<int>

    constructor (kq: int, kernel: Kernel)
      requires kernel.queue == map[]
      ensures Valid() && Idle() && this.kq == kq && this.kernel == kernel && fresh(pfds)
      ensures registered == map[] && polling == []
    {
      this.kq, this.kernel := kq, kernel;
      pollFds, pollFdsSize, registered, registeredSize, kevsLength := [], 0, map[], 0, 0;
      pfds := new PollFd[0];
      polling, drifted := [], {};
    }

    // -- the invariant --

    ghost predicate Table()
      reads `registered, `registeredSize
    {
      (forall fd :: fd in registered ==> registered[fd].fd == fd) && registeredSize == |registered|
    }

    /** The list has its stated size and no file twice, and is the nodes that say so. */
    ghost predicate Listed()
      reads `registered, `pollFds, `pollFdsSize
    {
      && pollFdsSize == |pollFds|
      && (forall i :: 0 <= i < |pollFds| ==> pollFds[i] in registered && registered[pollFds[i]].onList)
      && (forall i, j :: 0 <= i < j < |pollFds| ==> pollFds[i] != pollFds[j])
      && (forall fd :: fd in registered && registered[fd].onList ==> fd in pollFds)
    }

    /** The kqueue has filters of registered nodes only. */
    ghost predicate Owned()
      reads `registered, `pollFds, kernel`queue, kernel`repoll
    {
      && (forall fd :: kernel.At(fd) != UNWATCHED ==> fd in registered && May(registered[fd], kernel.At(fd)))
      && (pollFds != [] ==> kernel.repoll)
    }

    /** Every node is in order, but perhaps that of `x`. */
    ghost predicate GoodBut(x: int)
      reads `registered, kernel`queue, kernel`pollOnly, `drifted
    {
      forall fd :: fd in registered && fd != x ==> Good(registered[fd], kernel.At(fd), fd in kernel.pollOnly, fd in drifted)
    }

    ghost predicate AllGood()
      reads `registered, kernel`queue, kernel`pollOnly, `drifted
    {
      forall fd :: fd in registered ==> Good(registered[fd], kernel.At(fd), fd in kernel.pollOnly, fd in drifted)
    }

    /** A snapshot is the current list: the kqueue first, then every listed file with what is
        wanted of it. */
    ghost predicate Current(s: seq<PollFd>)
      reads `pollFds, `registered
    {
      && |s| == 1 + |pollFds| && s[0].fd == kq && s[0].events == NO_EVENTS.(input := true)
      && (forall i :: 0 <= i < |pollFds| && pollFds[i] in registered ==>
            s[1 + i].fd == pollFds[i] && s[1 + i].events == registered[pollFds[i]].events)
    }

    /** No thread polls on anything but the current list. */
    ghost predicate Agreed()
      reads `pollFds, `registered, `polling
    {
      forall i :: 0 <= i < |polling| ==> Current(polling[i])
    }

    ghost predicate Structure()
      reads this, kernel`queue, kernel`repoll
    {
      Table() && Listed() && Owned()
    }

    ghost predicate Valid()
      reads this, kernel`queue, kernel`pollOnly, kernel`repoll
    {
      Structure() && AllGood() && Agreed()
    }

    /** In the middle of an operation on `x`. */
    ghost predicate Inside(x: int)
      reads this, kernel`queue, kernel`pollOnly, kernel`repoll
    {
      Structure() && GoodBut(x) && x in registered && registered[x].Sound()
    }

    /** The filters of `x` have just been submitted. */
    ghost predicate Submitted(x: int, needed: Needed, reply: Reply)
      reads this, kernel`queue, kernel`pollOnly
    {
      && x in registered && needed == registered[x].Needs() && (needed.read != Off || needed.write != Off)
      && registered[x].has == Flags(needed.read != Off, needed.write != Off, needed.except != Off)
      && (reply.Refused? ==> reply.ec != OK)
      && (reply.Receipts? ==>
            && kernel.At(x) == After(UNWATCHED, needed, reply)
            && (forall f :: ModeOf(needed, f) == Off ==> reply.Of(f) == OK)
            && (forall f :: ModeOf(needed, f) != Off ==> (reply.Of(f) == ENODEV <==> x in kernel.pollOnly)))
    }

    /** Outside a wait no report is left over. */
    ghost predicate Idle()
      reads `registered
    {
      forall fd :: fd in registered ==> registered[fd].revents == {}
    }

    /** The kqueue has changed for one file only. */
    twostate predicate OnlyAt(x: int)
      reads kernel`queue
    {
      forall fd :: fd != x ==> kernel.At(fd) == old(kernel.At(fd))
    }

    /** What concerns one file leaves the others in order. */
    twostate lemma Local(x: int)
      requires old(Structure()) && old(GoodBut(x)) && x in old(registered)
      requires x in registered && registered == old(registered)[x := registered[x]] && registered[x].fd == x
      requires registered[x].onList == old(registered)[x].onList && pollFds == old(pollFds)
      requires pollFdsSize == old(pollFdsSize) && registeredSize == old(registeredSize)
      requires OnlyAt(x)
      requires kernel.pollOnly == old(kernel.pollOnly) && (old(kernel.repoll) ==> kernel.repoll)
      requires forall fd :: fd in drifted && fd != x <==> fd in old(drifted) && fd != x
      requires May(registered[x], kernel.At(x))
      ensures Structure() && GoodBut(x)
    {
    }

    twostate lemma StillAgreed(x: int)
      requires old(Listed()) && old(Agreed()) && x in old(registered) && !old(registered)[x].onList
      requires x in registered && registered == old(registered)[x := registered[x]]
      requires pollFds == old(pollFds) && polling == old(polling)
      ensures Agreed()
    {
    }

    // -- the poll list --

    /** `epollfd_ctx__trigger_repoll`: wakes the pollers through the kqueue and waits until all
        of them have left. */
    method TriggerRepoll()
      requires kernel.repoll
      modifies `polling, kernel`repollActive
      ensures polling == [] && (old(polling) != [] ==> kernel.repollActive)
    {
      if |polling| == 0 {
        return;
      }
      kernel.repollActive := true;
      while |polling| != 0
        invariant kernel.repollActive
      {
        polling := polling[1..];
      }
    }

    /** TAILQ_REMOVE and what goes with it. */
    method Unlist(x: int)
      requires Structure() && x in registered && registered[x].onList
      modifies `pollFds, `pollFdsSize, `polling, `registered, kernel`repollActive
      ensures Structure() && polling == []
      ensures registered == old(registered)[x := old(registered)[x].(onList := false)]
      ensures exists i :: 0 <= i < |old(pollFds)| && old(pollFds)[i] == x && pollFds == Without(old(pollFds), i)
    {
      var i := 0;
      while pollFds[i] != x
        invariant 0 <= i < |pollFds| && x !in pollFds[..i]
        decreases |pollFds| - i
      {
        i := i + 1;
      }
      WithoutElements(pollFds, i);
      pollFds := Without(pollFds, i);
      registered := registered[x := registered[x].(onList := false)];
      pollFdsSize := pollFdsSize - 1;
      TriggerRepoll();
    }

    /** `epollfd_ctx__remove_node_from_kq` */
    method RemoveFromQueue(x: int)
      requires Structure() && GoodBut(x) && x in registered && registered[x].Ready() && (Agreed() || registered[x].onList)
      modifies `pollFds, `pollFdsSize, `polling, `registered
      modifies kernel`repollActive, kernel`queue
      ensures Structure() && GoodBut(x) && Agreed() && x in registered && Absent(registered[x], kernel.At(x))
      ensures registered == old(registered)[x := old(registered)[x].(has := NO_FLAGS, onList := false)]
      ensures if old(registered)[x].onList
              then polling == [] && exists i :: 0 <= i < |old(pollFds)| && old(pollFds)[i] == x && pollFds == Without(old(pollFds), i)
              else pollFds == old(pollFds) && polling == old(polling)
      ensures kernel.queue == old(kernel.queue)[x := UNWATCHED]
      ensures OnlyAt(x)
    {
      if registered[x].onList {
        Unlist(x);
      }
      DeleteFilters(x);
    }

    /** The system calls of `epollfd_ctx__remove_node_from_kq`: a node of a file that only poll
        can watch has no other filter than its own. */
    method DeleteFilters(x: int)
      requires Structure() && GoodBut(x) && x in registered && registered[x].Ready() && !registered[x].onList
      modifies `registered, kernel`queue
      ensures Structure() && GoodBut(x) && x in registered && Absent(registered[x], kernel.At(x))
      ensures registered == old(registered)[x := old(registered)[x].(has := NO_FLAGS)]
      ensures kernel.queue == old(kernel.queue)[x := UNWATCHED]
      ensures OnlyAt(x)
    {
      if registered[x].kind.PollOnly? {
        kernel.DeleteSelf(x);
        assert registered == registered[x := registered[x].(has := NO_FLAGS)];
      } else {
        kernel.DeleteAll(x);
        registered := registered[x := registered[x].(has := NO_FLAGS)];
      }
    }

    /** `epollfd_ctx_remove_node` */
    method RemoveNode(x: int)
      requires Structure() && GoodBut(x) && x in registered && registered[x].Ready() && (Agreed() || registered[x].onList)
      modifies `pollFds, `pollFdsSize, `polling, `registered, `registeredSize
      modifies kernel`repollActive, kernel`queue
      ensures Valid() && registered == old(registered) - {x}
      ensures if old(registered)[x].onList
              then polling == [] && exists i :: 0 <= i < |old(pollFds)| && old(pollFds)[i] == x && pollFds == Without(old(pollFds), i)
              else pollFds == old(pollFds) && polling == old(polling)
      ensures kernel.queue == old(kernel.queue)[x := UNWATCHED]
      ensures OnlyAt(x)
    {
      RemoveFromQueue(x);
      Forget(x);
    }

    /** The node leaves the set of nodes. */
    method Forget(x: int)
      requires Structure() && GoodBut(x) && Agreed() && x in registered && Absent(registered[x], kernel.At(x))
      modifies `registered, `registeredSize
      ensures Valid() && registered == old(registered) - {x}
    {
      assert registered.Keys == (registered - {x}).Keys + {x};
      registered := registered - {x};
      registeredSize := registeredSize - 1;
    }

    // -- registering --

    /** Adds the filters a node needs. */
    method Submit(x: int) returns (needed: Needed, reply: Reply)
      requires Inside(x) && !registered[x].kind.PollOnly? && Absent(registered[x], kernel.At(x))
      modifies `registered, kernel`calls, kernel`queue
      ensures Inside(x) && Submitted(x, needed, reply)
      ensures registered == old(registered)[x := old(registered)[x].(has := registered[x].has)]
      ensures kernel.Answered(reply, old(kernel.calls), kernel.calls, x)
      ensures OnlyAt(x)
    {
      needed := registered[x].Needs();
      FlaggedSound(registered[x], needed);
      registered := registered[x := registered[x].(has := Flags(needed.read != Off, needed.write != Off, needed.except != Off))];
      reply := kernel.Add(x, needed);
      Local(x);
    }

    /** The part of `epollfd_ctx__register_events` for files that only poll can watch. */
    method RegisterPoll(x: int) returns (ec: Errno)
      requires Inside(x)
      requires registered[x].kind.PollOnly? || (registered[x].kind.Ordinary? && !registered[x].onList)
      requires NoFilters(kernel.At(x)) && (registered[x].onList ==> kernel.At(x).self)
      modifies `pollFds, `pollFdsSize, `polling, `registered
      modifies kernel`calls, kernel`queue, kernel`repoll, kernel`repollActive
      ensures Inside(x)
      ensures registered == old(registered)[x := old(registered)[x].(has := NO_FLAGS, kind := PollOnly, onList := old(registered)[x].onList || ec == OK)]
      ensures NoFilters(kernel.At(x)) && (registered[x].onList ==> kernel.At(x).self)
      ensures pollFds == old(pollFds) + if ec == OK && !old(registered)[x].onList then [x] else []
      ensures polling == if ec == OK then [] else old(polling)
      ensures kernel.Blamed(ec, old(kernel.calls), kernel.calls, x, Devices)
      ensures OnlyAt(x)
    {
      ghost var n := registered[x];
      ec := MakePollOnly(x);
      ghost var m := n.(has := NO_FLAGS, kind := PollOnly);
      if ec == OK {
        ghost var mid := kernel.calls;
        ec := Enlist(x);
        kernel.BlamedWider(ec, old(kernel.calls), mid, kernel.calls, kernel.calls, x, Devices);
        UpdateTwice(old(registered), x, m, m.(onList := n.onList || ec == OK));
      } else {
        assert m == m.(onList := n.onList);
      }
    }

    method MakePollOnly(x: int) returns (ec: Errno)
      requires Inside(x)
      requires registered[x].kind.PollOnly? || (registered[x].kind.Ordinary? && !registered[x].onList)
      requires NoFilters(kernel.At(x))
      modifies `registered, kernel`calls, kernel`queue
      ensures Inside(x)
      ensures registered == old(registered)[x := old(registered)[x].(has := NO_FLAGS, kind := PollOnly)]
      ensures kernel.At(x) == old(kernel.At(x)).(self := old(kernel.At(x)).self || ec == OK)
      ensures kernel.Blamed(ec, old(kernel.calls), kernel.calls, x, Devices)
      ensures OnlyAt(x)
    {
      registered := registered[x := registered[x].(has := NO_FLAGS, kind := PollOnly)];
      ec := kernel.AddSelf(x);
      assert kernel.Gives(old(kernel.calls), ec, x, Devices);
      Local(x);
    }

    method Enlist(x: int) returns (ec: Errno)
      requires Inside(x) && registered[x].kind.PollOnly?
      requires kernel.At(x).self
      modifies `pollFds, `pollFdsSize, `polling, `registered, kernel`calls, kernel`repoll, kernel`repollActive
      ensures Inside(x)
      ensures registered == old(registered)[x := old(registered)[x].(onList := old(registered)[x].onList || ec == OK)]
      ensures pollFds == old(pollFds) + if ec == OK && !old(registered)[x].onList then [x] else []
      ensures polling == if ec == OK then [] else old(polling)
      ensures old(registered)[x].onList ==> ec == OK
      ensures kernel.Blamed(ec, old(kernel.calls), kernel.calls, x, Devices)
    {
      ec := OK;
      assert registered == registered[x := registered[x]];
      if !registered[x].onList {
        ec := kernel.AddRepoll();
        assert kernel.Gives(old(kernel.calls), ec, x, Devices);
        if ec != OK {
          return;
        }
        Append(x);
      }
      TriggerRepoll();
    }

    method Append(x: int)
      requires Inside(x) && !registered[x].onList && registered[x].kind.PollOnly? && kernel.repoll
      modifies `pollFds, `pollFdsSize, `registered
      ensures Inside(x) && pollFds == old(pollFds) + [x]
      ensures registered == old(registered)[x := old(registered)[x].(onList := true)]
    {
      pollFds := pollFds + [x];
      registered := registered[x := registered[x].(onList := true)];
      pollFdsSize := pollFdsSize + 1;
    }

    /** What becomes of a node whose filters were submitted: the receipts are looked at in
        order.  A FIFO without a reader refuses its write filter; unless its read filter tells,
        an event of its own reports that and retries. */
    method Settle(x: int, needed: Needed, reply: Reply, ghost a: nat) returns (ec: Errno)
      requires Inside(x)
      requires !registered[x].kind.PollOnly? && Submitted(x, needed, reply) && reply.Receipts?
      requires kernel.Answered(reply, a, kernel.calls, x) && !(registered[x].kind.Ordinary? && x in kernel.pollOnly)
      modifies `registered, kernel`calls, kernel`queue
      ensures Inside(x)
      ensures registered == old(registered)[x := old(registered)[x].(eof := registered[x].eof, has := registered[x].has)]
      ensures ec == OK ==> Queued(registered[x], kernel.At(x))
      ensures ec == OK && registered[x].kind.Fifo? ==> Exact(registered[x], kernel.At(x)) || Readerless(registered[x], kernel.At(x))
      ensures PipeSettled(old(registered)[x], registered[x], kernel.At(x), ec, a)
      ensures !registered[x].kind.Fifo? ==> registered == old(registered) && (ec == OK ==> Exact(registered[x], kernel.At(x)))
      ensures ec == OK ==> x !in kernel.pollOnly
      ensures kernel.Blamed(ec, a, kernel.calls, x, PardonOf(old(registered)[x].kind))
      ensures OnlyAt(x)
    {
      FirstTells(x, needed, reply);
      ReceiptsBlamed(reply, a, kernel.calls, x, PardonOf(registered[x].kind));
      assert registered == registered[x := registered[x]];
      if reply.read != OK {
        return reply.read;
      }
      if reply.write != OK {
        if reply.write == EPIPE && registered[x].kind.Fifo? {
          assert x !in kernel.pollOnly;
          ghost var mid := kernel.calls;
          ec := LoseReader(x, needed);
          kernel.BlamedWider(ec, a, mid, kernel.calls, kernel.calls, x, PardonOf(registered[x].kind));
          if ec != OK {
            return;
          }
        } else {
          return reply.write;
        }
      }
      ec := reply.except;
    }

    /** Registering has changed what is known of the ends of a file only if this is a FIFO whose
        write filter was refused for want of a reader; where none was, a FIFO has its filters. */
    ghost predicate PipeSettled(n: Node, m: Node, w: Watched, ec: Errno, a: nat)
      reads kernel`calls
    {
      && (m.eof == n.eof || (n.kind.Fifo? && m.eof == CLOSED && kernel.Piped(a, kernel.calls)))
      && (ec == OK && m.kind.Fifo? && !kernel.Piped(a, kernel.calls) ==> Exact(m, w))
    }

    method LoseReader(x: int, needed: Needed) returns (ec: Errno)
      requires Inside(x) && registered[x].kind.Fifo?
      requires needed == registered[x].Needs() && needed.write != Off
      requires registered[x].has == Flags(needed.read != Off, true, false)
      requires kernel.At(x) == Watched(needed.read, Off, false, false)
      modifies `registered, kernel`calls, kernel`queue
      ensures Inside(x)
      ensures registered == old(registered)[x := old(registered)[x].(eof := CLOSED, has := Flags(needed.read != Off, false, false))]
      ensures ec == OK ==> Queued(registered[x], kernel.At(x))
      ensures ec == OK ==> Readerless(registered[x], kernel.At(x))
      ensures kernel.Blamed(ec, old(kernel.calls), kernel.calls, x, Pipes)
      ensures OnlyAt(x)
    {
      registered := registered[x := registered[x].(eof := CLOSED, has := Flags(needed.read != Off, false, false))];
      ec := OK;
      if needed.read == Off {
        ec := kernel.AddSelf(x);
        assert kernel.Gives(old(kernel.calls), ec, x, Pipes);
        if ec == OK {
          kernel.TriggerSelf(x);
        }
      }
      Local(x);
    }

    /** The part of `epollfd_ctx__register_events` for files that may have filters. */
    method RegisterFilters(x: int) returns (ec: Errno)
      requires Inside(x) && Agreed()
      requires !registered[x].kind.PollOnly? && !registered[x].onList
      requires registered[x].isRegistered || Absent(registered[x], kernel.At(x))
      modifies `pollFds, `pollFdsSize, `polling, `registered
      modifies kernel`calls, kernel`queue, kernel`repoll, kernel`repollActive
      ensures Inside(x) && Agreed()
      ensures ec == OK ==> Done(registered[x], kernel.At(x), x in kernel.pollOnly)
      ensures registered == old(registered)[x := registered[x]] && Reregistered(old(registered)[x], registered[x])
      ensures Settled(old(registered)[x], x in kernel.pollOnly) ==>
                registered[x].kind == old(registered)[x].kind && pollFds == old(pollFds) && polling == old(polling)
      ensures kernel.Blamed(ec, old(kernel.calls), kernel.calls, x, PardonOf(old(registered)[x].kind))
      ensures PipeSettled(old(registered)[x], registered[x], kernel.At(x), ec, old(kernel.calls))
      ensures ec == OK && registered[x].kind.PollOnly? ==> polling == []
      ensures OnlyAt(x)
    {
      var needed, reply := Refresh(x);
      ghost var n := registered[x];
      if reply.Refused? {
        kernel.RefusalBlamed(reply, old(kernel.calls), kernel.calls, x, PardonOf(registered[x].kind));
        ec := reply.ec;
      } else {
        ec := Conclude(x, needed, reply, old(kernel.calls));
        UpdateTwice(old(registered), x, n, registered[x]);
      }
    }

    method Refresh(x: int) returns (needed: Needed, reply: Reply)
      requires Inside(x) && Agreed()
      requires !registered[x].kind.PollOnly? && !registered[x].onList
      requires registered[x].isRegistered || Absent(registered[x], kernel.At(x))
      modifies `pollFds, `pollFdsSize, `polling, `registered
      modifies kernel`calls, kernel`queue, kernel`repollActive
      ensures Inside(x) && Agreed()
      ensures registered == old(registered)[x := old(registered)[x].(has := registered[x].has)]
      ensures pollFds == old(pollFds) && polling == old(polling)
      ensures Submitted(x, needed, reply)
      ensures kernel.Answered(reply, old(kernel.calls), kernel.calls, x)
      ensures OnlyAt(x)
    {
      ghost var n := registered[x];
      if registered[x].isRegistered {
        RemoveFromQueue(x);
        UpdateTwice(old(registered), x, n.(has := NO_FLAGS, onList := false), n.(has := NO_FLAGS, onList := false));
      }
      needed, reply := Submit(x);
      StillAgreed(x);
    }

    method Conclude(x: int, needed: Needed, reply: Reply, ghost a: nat) returns (ec: Errno)
      requires Inside(x) && Agreed() && !registered[x].kind.PollOnly? && !registered[x].onList
      requires Submitted(x, needed, reply) && reply.Receipts? && kernel.Answered(reply, a, kernel.calls, x)
      modifies `pollFds, `pollFdsSize, `polling, `registered
      modifies kernel`calls, kernel`queue, kernel`repoll, kernel`repollActive
      ensures Inside(x) && Agreed()
      ensures ec == OK ==> Done(registered[x], kernel.At(x), x in kernel.pollOnly)
      ensures registered == old(registered)[x := registered[x]] && Reregistered(old(registered)[x], registered[x])
      ensures Settled(old(registered)[x], x in kernel.pollOnly) ==>
                registered[x].kind == old(registered)[x].kind && pollFds == old(pollFds) && polling == old(polling)
      ensures kernel.Blamed(ec, a, kernel.calls, x, PardonOf(old(registered)[x].kind))
      ensures PipeSettled(old(registered)[x], registered[x], kernel.At(x), ec, a)
      ensures ec == OK && registered[x].kind.PollOnly? ==> polling == []
      ensures OnlyAt(x)
    {
      var first := if needed.read != Off then reply.read else reply.write;
      FirstTells(x, needed, reply);
      if registered[x].kind.Ordinary? && first == ENODEV {
        ghost var mid := kernel.calls;
        ec := ConcludePoll(x);
        kernel.BlamedWider(ec, a, mid, kernel.calls, kernel.calls, x, Devices);
      } else {
        ec := ConcludeFilters(x, needed, reply, a);
      }
    }

    lemma FirstTells(x: int, needed: Needed, reply: Reply)
      requires Submitted(x, needed, reply) && reply.Receipts?
      ensures (if needed.read != Off then reply.read else reply.write) == ENODEV <==> x in kernel.pollOnly
      ensures x in kernel.pollOnly ==> NoFilters(kernel.At(x))
      ensures ModeOf(needed, Read) == needed.read && ModeOf(needed, Write) == needed.write
    {
      assert ModeOf(needed, Read) == needed.read && ModeOf(needed, Write) == needed.write;
    }

    lemma ReceiptsBlamed(reply: Reply, a: nat, b: nat, x: int, pardon: Pardon)
      requires kernel.Answered(reply, a, b, x) && reply.Receipts? && !(pardon == Devices && x in kernel.pollOnly)
      ensures kernel.Blamed(reply.read, a, b, x, pardon) && kernel.Blamed(reply.except, a, b, x, pardon)
      ensures kernel.Blamed(reply.write, a, b, x, pardon) || (pardon == Pipes && reply.write == EPIPE)
      ensures reply.write == EPIPE && x !in kernel.pollOnly ==> kernel.Piped(a, b)
    {
      kernel.ReceiptBlamed(reply, Read, a, b, x, pardon);
      kernel.ReceiptBlamed(reply, Except, a, b, x, pardon);
      if !kernel.Pardoned(reply.write, Write, x, pardon) {
        kernel.ReceiptBlamed(reply, Write, a, b, x, pardon);
      }
      assert reply.Of(Write) == OK || reply.Of(Write) == kernel.ReceiptOf(a, Write, x);
    }

    method ConcludeFilters(x: int, needed: Needed, reply: Reply, ghost a: nat) returns (ec: Errno)
      requires Inside(x) && Agreed() && !registered[x].kind.PollOnly? && !registered[x].onList
      requires Submitted(x, needed, reply) && reply.Receipts? && kernel.Answered(reply, a, kernel.calls, x)
      requires !(registered[x].kind.Ordinary? && x in kernel.pollOnly)
      modifies `registered, kernel`calls, kernel`queue
      ensures Inside(x) && Agreed()
      ensures ec == OK ==> Done(registered[x], kernel.At(x), x in kernel.pollOnly)
      ensures registered == old(registered)[x := registered[x]] && Reregistered(old(registered)[x], registered[x])
      ensures registered[x].kind == old(registered)[x].kind
      ensures kernel.Blamed(ec, a, kernel.calls, x, PardonOf(old(registered)[x].kind))
      ensures PipeSettled(old(registered)[x], registered[x], kernel.At(x), ec, a)
      ensures OnlyAt(x)
    {
      ec := Settle(x, needed, reply, a);
      StillAgreed(x);
    }

    method ConcludePoll(x: int) returns (ec: Errno)
      requires Inside(x) && Agreed() && registered[x].kind.Ordinary? && !registered[x].onList
      requires x in kernel.pollOnly && NoFilters(kernel.At(x))
      modifies `pollFds, `pollFdsSize, `polling, `registered
      modifies kernel`calls, kernel`queue, kernel`repoll, kernel`repollActive
      ensures Inside(x) && Agreed()
      ensures ec == OK ==> Done(registered[x], kernel.At(x), x in kernel.pollOnly)
      ensures registered == old(registered)[x := registered[x]] && Reregistered(old(registered)[x], registered[x])
      ensures kernel.Blamed(ec, old(kernel.calls), kernel.calls, x, Devices)
      ensures ec == OK && registered[x].kind.PollOnly? ==> polling == []
      ensures OnlyAt(x)
    {
      ec := RegisterPoll(x);
      if ec != OK {
        StillAgreed(x);
      }
    }

    /** `epollfd_ctx__register_events` */
    method RegisterEvents(x: int) returns (ec: Errno)
      requires Structure() && GoodBut(x) && x in registered && registered[x].Ready() && (Agreed() || registered[x].onList)
      requires if registered[x].isRegistered
               then Settled(registered[x], x in kernel.pollOnly) && (registered[x].onList ==> kernel.At(x).self)
               else Absent(registered[x], kernel.At(x)) && !registered[x].kind.PollOnly?
      modifies `pollFds, `pollFdsSize, `polling, `registered, `drifted
      modifies kernel`calls, kernel`queue, kernel`repoll, kernel`repollActive
      ensures Inside(x) && (Agreed() || registered[x].onList)
      ensures ec == OK ==> Agreed() && Done(registered[x], kernel.At(x), x in kernel.pollOnly)
      ensures registered == old(registered)[x := registered[x]] && Reregistered(old(registered)[x], registered[x])
      ensures Settled(old(registered)[x], x in kernel.pollOnly) && !old(registered)[x].kind.PollOnly? ==>
                registered[x].kind == old(registered)[x].kind && pollFds == old(pollFds) && polling == old(polling)
      ensures drifted == old(drifted) - if ec == OK then {x} else {}
      ensures kernel.Blamed(ec, old(kernel.calls), kernel.calls, x, PardonOf(old(registered)[x].kind))
      ensures PipeSettled(old(registered)[x], registered[x], kernel.At(x), ec, old(kernel.calls))
      ensures ec == OK && registered[x].kind.PollOnly? ==> polling == []
      ensures OnlyAt(x)
    {
      ec := RegisterStripped(x);
      drifted := drifted - if ec == OK then {x} else {};
    }

    method RegisterStripped(x: int) returns (ec: Errno)
      requires Structure() && GoodBut(x) && x in registered && registered[x].Ready() && (Agreed() || registered[x].onList)
      requires if registered[x].isRegistered
               then Settled(registered[x], x in kernel.pollOnly) && (registered[x].onList ==> kernel.At(x).self)
               else Absent(registered[x], kernel.At(x)) && !registered[x].kind.PollOnly?
      modifies `pollFds, `pollFdsSize, `polling, `registered
      modifies kernel`calls, kernel`queue, kernel`repoll, kernel`repollActive
      ensures Inside(x) && (Agreed() || registered[x].onList)
      ensures ec == OK ==> Agreed() && Done(registered[x], kernel.At(x), x in kernel.pollOnly)
      ensures registered == old(registered)[x := registered[x]] && Reregistered(old(registered)[x], registered[x])
      ensures Settled(old(registered)[x], x in kernel.pollOnly) && !old(registered)[x].kind.PollOnly? ==>
                registered[x].kind == old(registered)[x].kind && pollFds == old(pollFds) && polling == old(polling)
      ensures kernel.Blamed(ec, old(kernel.calls), kernel.calls, x, PardonOf(old(registered)[x].kind))
      ensures PipeSettled(old(registered)[x], registered[x], kernel.At(x), ec, old(kernel.calls))
      ensures ec == OK && registered[x].kind.PollOnly? ==> polling == []
      ensures OnlyAt(x)
    {
      Strip(x);
      ghost var n := registered[x];
      ec := RegisterKept(x);
      UpdateTwice(old(registered), x, n, registered[x]);
    }

    method RegisterKept(x: int) returns (ec: Errno)
      requires Inside(x) && (Agreed() || registered[x].onList)
      requires if registered[x].isRegistered
               then Settled(registered[x], x in kernel.pollOnly) && (registered[x].onList ==> kernel.At(x).self)
               else Absent(registered[x], kernel.At(x)) && !registered[x].kind.PollOnly?
      modifies `pollFds, `pollFdsSize, `polling, `registered
      modifies kernel`calls, kernel`queue, kernel`repoll, kernel`repollActive
      ensures Inside(x) && (Agreed() || registered[x].onList)
      ensures ec == OK ==> Agreed() && Done(registered[x], kernel.At(x), x in kernel.pollOnly)
      ensures registered == old(registered)[x := registered[x]] && Reregistered(old(registered)[x], registered[x])
      ensures Settled(old(registered)[x], x in kernel.pollOnly) && !old(registered)[x].kind.PollOnly? ==>
                registered[x].kind == old(registered)[x].kind && pollFds == old(pollFds) && polling == old(polling)
      ensures kernel.Blamed(ec, old(kernel.calls), kernel.calls, x, PardonOf(old(registered)[x].kind))
      ensures PipeSettled(old(registered)[x], registered[x], kernel.At(x), ec, old(kernel.calls))
      ensures ec == OK && registered[x].kind.PollOnly? ==> polling == []
      ensures OnlyAt(x)
    {
      if registered[x].kind.PollOnly? {
        ec := RegisterPoll(x);
        if !registered[x].onList {
          StillAgreed(x);
        }
      } else {
        ec := RegisterFilters(x);
      }
    }

    method Strip(x: int)
      requires Structure() && GoodBut(x) && x in registered && registered[x].Ready() && (Agreed() || registered[x].onList)
      modifies `registered
      ensures Inside(x) && (Agreed() || registered[x].onList)
      ensures registered == old(registered)[x := old(registered)[x].(events := old(registered)[x].KeptEvents())]
    {
      assert May(registered[x], kernel.At(x));
      registered := registered[x := registered[x].(events := registered[x].KeptEvents())];
      Local(x);
      if !registered[x].onList {
        StillAgreed(x);
      }
    }

    // -- epoll_ctl --

    /** `epollfd_ctx_add_node` */
    method AddNode(x: int, hasDesc: bool, r: Request, stat: Stat, memory: bool) returns (ec: Errno)
      requires Valid() && Idle() && x !in registered && !stat.NoFile?
      modifies `pollFds, `pollFdsSize, `polling, `registered, `registeredSize, `drifted
      modifies kernel`calls, kernel`queue, kernel`repoll, kernel`repollActive
      ensures Valid() && Idle()
      ensures ec != OK ==> registered == old(registered)
      ensures ec == OK ==>
                && x in registered && registered == old(registered)[x := registered[x]]
                && Fulfils(registered[x], r, stat, hasDesc) && Done(registered[x], kernel.At(x), x in kernel.pollOnly)
      ensures if !memory then ec == ENOMEM
              else if stat.FifoFile? && stat.mode.Unknown? then ec == stat.mode.ec
              else if stat.FifoFile? && stat.mode.BadMode? then ec == EINVAL
              else kernel.Blamed(ec, old(kernel.calls), kernel.calls, x, PardonOf(KindOf(stat)))
                   && (kernel.Smooth(old(kernel.calls), kernel.calls, PardonOf(KindOf(stat))) && (stat.OtherFile? || x !in kernel.pollOnly) ==> ec == OK)
      ensures ec == OK && registered[x].kind.PollOnly? ==> polling == []
      ensures ec == OK && registered[x].kind.Fifo? && !kernel.Piped(old(kernel.calls), kernel.calls) ==> Exact(registered[x], kernel.At(x))
      ensures OnlyAt(x)
    {
      if !memory {
        return ENOMEM;
      }
      if stat.FifoFile? && (stat.mode.Unknown? || stat.mode.BadMode?) {
        return if stat.mode.Unknown? then stat.mode.ec else EINVAL;
      }
      ec := Include(x, NewNode(x, KindOf(stat), hasDesc).Updated(r));
      kernel.CleanSucceeds(ec, old(kernel.calls), kernel.calls, x, PardonOf(KindOf(stat)));
    }

    method Include(x: int, n: Node) returns (ec: Errno)
      requires Valid() && Idle() && x !in registered && n.fd == x && n.Ready() && !n.isRegistered && !n.kind.PollOnly?
      requires n.has == NO_FLAGS && !n.onList && n.revents == {}
      modifies `pollFds, `pollFdsSize, `polling, `registered, `registeredSize, `drifted
      modifies kernel`calls, kernel`queue, kernel`repoll, kernel`repollActive
      ensures Valid() && Idle()
      ensures ec != OK ==> registered == old(registered)
      ensures ec == OK ==>
                && x in registered && registered == old(registered)[x := registered[x]]
                && Reregistered(n.(isRegistered := true), registered[x]) && Done(registered[x], kernel.At(x), x in kernel.pollOnly)
      ensures kernel.Blamed(ec, old(kernel.calls), kernel.calls, x, PardonOf(n.kind))
      ensures ec == OK && registered[x].kind.PollOnly? ==> polling == []
      ensures ec == OK && registered[x].kind.Fifo? && !kernel.Piped(old(kernel.calls), kernel.calls) ==> Exact(registered[x], kernel.At(x))
      ensures OnlyAt(x)
    {
      ec := Insert(x, n);
      if ec != OK {
        RemoveNode(x);
      } else {
        ghost var m := registered[x];
        MarkRegistered(x);
        UpdateTwice(old(registered), x, m, registered[x]);
      }
    }

    method MarkRegistered(x: int)
      requires Inside(x) && Agreed() && Done(registered[x], kernel.At(x), x in kernel.pollOnly) && Idle()
      modifies `registered
      ensures Valid() && Idle() && registered == old(registered)[x := old(registered)[x].(isRegistered := true)]
      ensures Done(registered[x], kernel.At(x), x in kernel.pollOnly)
    {
      registered := registered[x := registered[x].(isRegistered := true)];
      Local(x);
    }

    method Insert(x: int, n: Node) returns (ec: Errno)
      requires Valid() && x !in registered && n.fd == x && n.Ready() && !n.isRegistered && !n.kind.PollOnly?
      requires n.has == NO_FLAGS && !n.onList && n.revents == {}
      modifies `pollFds, `pollFdsSize, `polling, `registered, `registeredSize, `drifted
      modifies kernel`calls, kernel`queue, kernel`repoll, kernel`repollActive
      ensures Inside(x) && (Agreed() || registered[x].onList)
      ensures ec == OK ==> Agreed() && Done(registered[x], kernel.At(x), x in kernel.pollOnly)
      ensures registered == old(registered)[x := registered[x]] && Reregistered(n, registered[x])
      ensures kernel.Blamed(ec, old(kernel.calls), kernel.calls, x, PardonOf(n.kind))
      ensures ec == OK && registered[x].kind.PollOnly? ==> polling == []
      ensures ec == OK && registered[x].kind.Fifo? && !kernel.Piped(old(kernel.calls), kernel.calls) ==> Exact(registered[x], kernel.At(x))
      ensures OnlyAt(x)
    {
      Place(x, n);
      ec := RegisterEvents(x);
      UpdateTwice(old(registered), x, n, registered[x]);
    }

    /** The node goes into the set of nodes. */
    method Place(x: int, n: Node)
      requires Valid() && x !in registered && n.fd == x && n.Ready() && !n.isRegistered && !n.kind.PollOnly?
      requires n.has == NO_FLAGS && !n.onList && n.revents == {}
      modifies `registered, `registeredSize
      ensures Structure() && GoodBut(x) && Agreed() && registered == old(registered)[x := n]
      ensures Absent(n, kernel.At(x))
    {
      assert kernel.At(x) == UNWATCHED;
      registered := registered[x := n];
      registeredSize := registeredSize + 1;
    }

    /** `epollfd_ctx_modify_node` */
    method ModifyNode(x: int, r: Request) returns (ec: Errno)
      requires Valid() && Idle() && x in registered
      modifies `pollFds, `pollFdsSize, `polling, `registered, `registeredSize, `drifted
      modifies kernel`calls, kernel`queue, kernel`repoll, kernel`repollActive
      ensures Valid() && Idle()
      ensures ec != OK ==> registered == old(registered) - {x}
      ensures ec == OK ==>
                && x in registered && registered == old(registered)[x := registered[x]]
                && Modified(old(registered)[x], registered[x], r) && Done(registered[x], kernel.At(x), x in kernel.pollOnly)
      ensures kernel.Blamed(ec, old(kernel.calls), kernel.calls, x, PardonOf(old(registered)[x].kind))
      ensures kernel.Smooth(old(kernel.calls), kernel.calls, PardonOf(old(registered)[x].kind)) ==> ec == OK
      ensures ec == OK && registered[x].kind.PollOnly? ==> polling == []
      ensures ec == OK && registered[x].kind.Fifo? && !kernel.Piped(old(kernel.calls), kernel.calls) ==> Exact(registered[x], kernel.At(x))
      ensures OnlyAt(x)
    {
      ec := Change(x, r);
      kernel.CleanSucceeds(ec, old(kernel.calls), kernel.calls, x, PardonOf(old(registered)[x].kind));
      if ec != OK {
        RemoveNode(x);
      }
    }

    method Change(x: int, r: Request) returns (ec: Errno)
      requires Valid() && x in registered
      modifies `pollFds, `pollFdsSize, `polling, `registered, `registeredSize, `drifted
      modifies kernel`calls, kernel`queue, kernel`repoll, kernel`repollActive
      ensures Inside(x) && (Agreed() || registered[x].onList)
      ensures ec == OK ==> Agreed() && Done(registered[x], kernel.At(x), x in kernel.pollOnly)
      ensures registered == old(registered)[x := registered[x]] && Reregistered(old(registered)[x].Updated(r), registered[x])
      ensures !registered[x].kind.PollOnly? ==> registered[x].kind == old(registered)[x].kind
      ensures kernel.Blamed(ec, old(kernel.calls), kernel.calls, x, PardonOf(old(registered)[x].kind))
      ensures ec == OK && registered[x].kind.PollOnly? ==> polling == []
      ensures ec == OK && registered[x].kind.Fifo? && !kernel.Piped(old(kernel.calls), kernel.calls) ==> Exact(registered[x], kernel.At(x))
      ensures OnlyAt(x)
    {
      registered := registered[x := registered[x].Updated(r)];
      Local(x);
      if !registered[x].onList {
        StillAgreed(x);
      }
      ghost var n := registered[x];
      ec := RegisterEvents(x);
      UpdateTwice(old(registered), x, n, registered[x]);
    }

    /** `epollfd_ctx_remove_fd`, when a file is closed. */
    method RemoveFd(x: int)
      requires Valid() && Idle()
      modifies `pollFds, `pollFdsSize, `polling, `registered, `registeredSize, `drifted
      modifies kernel`calls, kernel`queue, kernel`repoll, kernel`repollActive
      ensures Valid() && Idle() && registered == old(registered) - {x} && kernel.At(x) == UNWATCHED
      ensures OnlyAt(x)
    {
      if x in registered {
        RemoveNode(x);
      }
    }

    /** `epollfd_ctx_ctl` */
    method Ctl(op: Op, x: int, hasDesc: bool, r: Request, stat: Stat, memory: bool) returns (ec: Errno)
      requires Valid() && Idle()
      modifies `pollFds, `pollFdsSize, `polling, `registered, `registeredSize, `drifted
      modifies kernel`calls, kernel`queue, kernel`repoll, kernel`repollActive
      ensures Valid() && Idle()
      ensures Outcome(op, x, hasDesc, r, stat, old(registered), registered, ec)
      ensures Excused(op, x, r, stat, memory, old(registered), ec, old(kernel.calls), kernel.calls)
      ensures ec == OK && !op.Del? ==> x in registered && Done(registered[x], kernel.At(x), x in kernel.pollOnly)
      ensures ec == OK && !op.Del? && x in kernel.pollOnly ==>
                registered[x].onList && x in pollFds && kernel.At(x).self && kernel.repoll && polling == []
      ensures ec == OK && !op.Del? && registered[x].kind.Fifo? && !kernel.Piped(old(kernel.calls), kernel.calls) ==>
                Exact(registered[x], kernel.At(x))
      ensures OnlyAt(x)
    {
      if x == kq {
        return EINVAL;
      }
      if !op.Del? && r.unsupported {
        return EINVAL;
      }
      if stat.NoFile? {
        RemoveFd(x);
        return stat.ec;
      }
      match op
      case Add =>
        if x in registered {
          ec := EEXIST;
        } else {
          ec := AddNode(x, hasDesc, r, stat, memory);
        }
      case Del =>
        if x !in registered {
          ec := ENOENT;
        } else {
          RemoveNode(x);
          ec := OK;
        }
      case Mod =>
        if x !in registered {
          ec := ENOENT;
        } else {
          ec := ModifyNode(x, r);
        }
      case Unsupported =>
        ec := EINVAL;
    }

    /** What an epoll_ctl does to the set of registered files. */
    ghost predicate Outcome(op: Op, x: int, hasDesc: bool, r: Request, stat: Stat, was: map<int, Node>, now: map<int, Node>, ec: Errno) {
      if x == kq || (!op.Del? && r.unsupported) then ec == EINVAL && now == was
      else if stat.NoFile? then ec == stat.ec && now == was - {x}
      else
        match op
        case Add =>
          if x in was then ec == EEXIST && now == was
          else if ec != OK then now == was
          else x in now && now == was[x := now[x]] && Fulfils(now[x], r, stat, hasDesc)
        case Del =>
          if x !in was then ec == ENOENT && now == was else ec == OK && now == was - {x}
        case Mod =>
          if x !in was then ec == ENOENT && now == was
          else if ec != OK then now == was - {x}
          else x in now && now == was[x := now[x]] && Modified(was[x], now[x], r)
        case Unsupported => ec == EINVAL && now == was
    }

    /** An epoll_ctl fails for its arguments, for want of memory, or with the error of one of its
        calls: where none fails, only a file that neither filters nor poll suit is refused. */
    ghost predicate Excused(op: Op, x: int, r: Request, stat: Stat, memory: bool, was: map<int, Node>, ec: Errno, a: nat, b: nat)
      reads kernel`pollOnly
    {
      x != kq && (op.Del? || !r.unsupported) && !stat.NoFile? ==>
        && (op.Add? && x !in was ==>
              if !memory then ec == ENOMEM
              else if stat.FifoFile? && stat.mode.Unknown? then ec == stat.mode.ec
              else if stat.FifoFile? && stat.mode.BadMode? then ec == EINVAL
              else kernel.Blamed(ec, a, b, x, PardonOf(KindOf(stat)))
                   && (kernel.Smooth(a, b, PardonOf(KindOf(stat))) && (stat.OtherFile? || x !in kernel.pollOnly) ==> ec == OK))
        && (op.Mod? && x in was ==> kernel.Blamed(ec, a, b, x, PardonOf(was[x].kind)) && (kernel.Smooth(a, b, PardonOf(was[x].kind)) ==> ec == OK))
    }

    // -- polling --

    /** `epollfd_ctx_make_pfds_space` */
    method MakePfdsSpace(memory: bool) returns (ec: Errno)
      requires Valid()
      modifies `pfds
      ensures Valid() && (pfds == old(pfds) || fresh(pfds))
      ensures ec == OK ==> pfds.Length >= 1 + |pollFds|
      ensures ec != OK ==> ec == ENOMEM && !memory && pfds == old(pfds)
    {
      var cnt := 1 + pollFdsSize;
      if cnt <= pfds.Length {
        return OK;
      }
      if !memory {
        return ENOMEM;
      }
      pfds := new PollFd[cnt](_ => PollFd(0, NO_EVENTS, {}, false));
      ec := OK;
    }

    /** `epollfd_ctx_fill_pollfds` fills exactly one slot more than the list is long. */
    method FillPollFds(a: array<PollFd>)
      requires Valid() && a.Length >= 1 + pollFdsSize
      modifies a
      ensures Current(a[..1 + pollFdsSize]) && a[1 + pollFdsSize..] == old(a[1 + pollFdsSize..])
    {
      forall k | 0 <= k < |pollFds| ensures registered[pollFds[k]].fd == pollFds[k] && registered[pollFds[k]].kind.PollOnly? {
        assert Good(registered[pollFds[k]], kernel.At(pollFds[k]), pollFds[k] in kernel.pollOnly, pollFds[k] in drifted);
      }
      a[0] := PollFd(kq, NO_EVENTS.(input := true), {}, false);
      var i := 1;
      for k := 0 to |pollFds|
        invariant i == 1 + k
        invariant a[0].fd == kq && a[0].events == NO_EVENTS.(input := true)
        invariant forall j :: 0 <= j < k ==> a[1 + j].fd == pollFds[j] && a[1 + j].events == registered[pollFds[j]].events
        invariant a[1 + pollFdsSize..] == old(a[1 + pollFdsSize..])
      {
        var n := registered[pollFds[k]];
        assert n.fd == pollFds[k] && n.kind.PollOnly?;
        a[i] := PollFd(n.fd, if n.kind.PollOnly? then n.events else NO_EVENTS.(urgent := true), {}, false);
        i := i + 1;
      }
    }

    /** A thread of `epollfd_ctx_wait_or_block` takes its snapshot and counts itself, with the
        descriptor's mutex held. */
    method EnterPoll(memory: bool) returns (ec: Errno)
      requires Valid()
      modifies `polling
      ensures Valid() && ec == if memory then OK else ENOMEM
      ensures |polling| == |old(polling)| + (if memory then 1 else 0) && polling[..|old(polling)|] == old(polling)
    {
      if !memory {
        return ENOMEM;
      }
      var a := new PollFd[1 + pollFdsSize](_ => PollFd(0, NO_EVENTS, {}, false));
      FillPollFds(a);
      polling := polling + [a[..]];
      ec := OK;
    }

    /** It leaves its ppoll call; no mutex of the descriptor is needed. */
    method LeavePoll(t: nat)
      requires Valid() && t < |polling|
      modifies `polling
      ensures Valid() && polling == Without(old(polling), t)
    {
      polling := Without(polling, t);
    }

    // -- events --

    /** What has been reported is wanted. */
    ghost predicate Reports()
      reads `registered
    {
      forall fd :: fd in registered ==> registered[fd].Reporting()
    }

    /** `registered_fds_node_feed_event` for the events of a file's filters. */
    method FeedFile(x: int, ev: Event)
      requires x in registered && Feedable(registered[x], ev) && registered[x].Ready() && registered[x].Reporting()
      modifies `registered, kernel`polled
      ensures x in registered && registered == old(registered)[x := registered[x]]
      ensures FedTo(old(registered)[x], registered[x], ev, kernel.Pending(old(kernel.polled)))
      ensures kernel.polled == old(kernel.polled) + if old(registered)[x].kind.KQueue? && old(registered)[x].hasDesc then 1 else 0
    {
      var n := registered[x];
      if ev.filter != Except {
        n := n.(eof := if n.kind.Socket? then SocketEof(n.eof, ev) else if ev.eof then CLOSED else OPEN);
        if n.kind.Fifo? && n.eof != OPEN && ev.filter == Write && n.has.read {
          assert n.kind.readable && n.kind.writable;
          registered := registered[x := n.(revents := If(n.revents != {}, n.revents + {HUP}))];
          return;
        }
      }
      var bits := Report(n.kind, n.eof, ev);
      n := Finish(n, ev, bits);
      registered := registered[x := n];
    }

    /** The end of `registered_fds_node_feed_event`. */
    method Finish(n: Node, ev: Event, bits: Mask) returns (m: Node)
      requires n.kind.KQueue? ==> ev.filter == Read && IN in bits
      modifies kernel`polled
      ensures kernel.polled == old(kernel.polled) + if n.kind.KQueue? && n.hasDesc then 1 else 0
      ensures m == n.(revents := m.revents, got := m.got) && m.Reporting()
      ensures var revents := (n.revents + bits) * Reportable(Bits(n.events));
              && m.revents == (if n.kind.KQueue? && n.hasDesc then If(kernel.Pending(old(kernel.polled)), {IN}) * Reportable(Bits(n.events))
                               else revents)
              && m.got == if revents != {} then GotAfter(n.got, ev.filter) else n.got
    {
      m := n.(revents := (n.revents + bits) * Reportable(Bits(n.events)));
      if m.revents != {} {
        m := m.(got := GotAfter(m.got, ev.filter));
      }
      if m.kind.KQueue? && m.hasDesc {
        var pending := kernel.PollDesc();
        m := m.(revents := If(pending, {IN}) * Reportable(Bits(m.events)));
      }
    }

    /** `registered_fds_node_feed_event` for a file that only poll can watch. */
    method FeedPoll(x: int)
      requires x in registered && registered[x].kind.PollOnly? && registered[x].revents == {}
      modifies `registered, kernel`polled
      ensures x in registered && registered == old(registered)[x := old(registered)[x].(revents := registered[x].revents)]
      ensures registered[x].Reporting() && kernel.polled == old(kernel.polled) + 1
      ensures registered[x].revents == PollBits(kernel.ReplyAt(old(kernel.polled), registered[x].events))
    {
      var n := registered[x];
      var reply := kernel.PollOne(n.events);
      n := n.(revents := match reply case Failed => {ERR} case Invalid => {} case Ready(bits) => bits);
      registered := registered[x := n];
    }

    /** `registered_fds_node_feed_event` for a FIFO that waits for a reader: it tries to add its
        write filter again. */
    method FeedRetry(x: int)
      requires Inside(x) && registered[x].Waiting() && registered[x].revents == {}
      requires Queued(registered[x], kernel.At(x)) && kernel.At(x).self && !kernel.At(x).active && x !in kernel.pollOnly
      modifies `registered, kernel`calls, kernel`queue
      ensures Inside(x) && Queued(registered[x], kernel.At(x)) && registered[x].Reporting()
      ensures registered == old(registered)[x := old(registered)[x].(has := registered[x].has, revents := registered[x].revents)]
      ensures Retried(old(registered)[x], registered[x], kernel.At(x)) && old(kernel.calls) <= kernel.calls
      ensures kernel.Clean(old(kernel.calls), kernel.calls) ==> registered[x].has.write
      ensures OnlyAt(x)
    {
      var n := registered[x];
      var needed := n.Needs();
      WriterOnly(n);
      var reply := kernel.Add(x, Needed(Off, needed.write, Off));
      CleanAdds(reply, old(kernel.calls), kernel.calls, x);
      if reply.Refused? || reply.write != OK {
        if !n.edge {
          kernel.TriggerSelf(x);
        }
        n := n.(revents := {ERR, OUT} * Reportable(Bits(n.events)));
      } else {
        n := n.(has := Flags(false, true, false));
      }
      registered := registered[x := n];
      Local(x);
    }

    lemma CleanAdds(reply: Reply, a: nat, b: nat, x: int)
      requires kernel.Answered(reply, a, b, x) && (reply.Refused? ==> reply.ec != OK) && x !in kernel.pollOnly
      ensures kernel.Clean(a, b) ==> reply.Receipts? && reply.write == OK
    {
      if kernel.Clean(a, b) {
        assert kernel.Fine(a, Nothing);
        assert reply.Receipts? ==> reply.Of(Write) == OK || reply.Of(Write) == kernel.ReceiptOf(a, Write, x);
      }
    }

    /** The part of the event loop that follows the ends of a file with its filters. */
    method Refilter(x: int, oldNeeded: Needed)
      requires Inside(x) && Agreed() && registered[x].isRegistered && !registered[x].kind.PollOnly?
      requires Queued(registered[x], kernel.At(x)) && Settled(registered[x], x in kernel.pollOnly)
      requires registered[x].Leveled() && x !in drifted ==>
                 NoFilters(kernel.At(x)) || (kernel.At(x).read == oldNeeded.read && kernel.At(x).write == oldNeeded.write)
      modifies `pollFds, `pollFdsSize, `polling, `registered, `drifted
      modifies kernel`calls, kernel`queue, kernel`repoll, kernel`repollActive
      ensures Valid() && x in registered && registered == old(registered)[x := registered[x]]
      ensures Refiltered(old(registered)[x], registered[x]) && drifted <= old(drifted)
      ensures pollFds == old(pollFds)
      ensures oldNeeded.Filters() == old(registered)[x].Needs().Filters() ==>
                registered == old(registered) && kernel.queue == old(kernel.queue) && kernel.calls == old(kernel.calls)
      ensures oldNeeded.Filters() != old(registered)[x].Needs().Filters() && registered[x].Leveled() ==>
                Exact(registered[x], kernel.At(x)) || (NoFilters(kernel.At(x)) && !kernel.Clean(old(kernel.calls), kernel.calls))
      ensures kernel.Clean(old(kernel.calls), kernel.calls) ==> FifoStays(old(registered)[x], registered[x])
      ensures kernel.Clean(old(kernel.calls), kernel.calls) && Lasting(registered[x], old(kernel.At(x))) ==> !NoFilters(kernel.At(x))
      ensures old(kernel.calls) <= kernel.calls
      ensures OnlyAt(x)
    {
      var n := registered[x];
      if !(n.edge && n.eof == CLOSED && !n.kind.Fifo?) {
        var needed := n.Needs();
        if oldNeeded.read != needed.read || oldNeeded.write != needed.write {
          Reregister(x);
        }
      }
    }

    method Reregister(x: int)
      requires Inside(x) && Agreed() && registered[x].isRegistered && !registered[x].kind.PollOnly?
      requires Queued(registered[x], kernel.At(x)) && Settled(registered[x], x in kernel.pollOnly)
      modifies `pollFds, `pollFdsSize, `polling, `registered, `drifted
      modifies kernel`calls, kernel`queue, kernel`repoll, kernel`repollActive
      ensures Valid() && x in registered && registered == old(registered)[x := registered[x]]
      ensures Refiltered(old(registered)[x], registered[x]) && drifted <= old(drifted)
      ensures pollFds == old(pollFds)
      ensures registered[x].Filtered() ==>
                Exact(registered[x], kernel.At(x)) || (NoFilters(kernel.At(x)) && !kernel.Clean(old(kernel.calls), kernel.calls))
      ensures kernel.Clean(old(kernel.calls), kernel.calls) ==> FifoStays(old(registered)[x], registered[x])
      ensures kernel.Clean(old(kernel.calls), kernel.calls) && registered[x].Filtered() ==> !NoFilters(kernel.At(x))
      ensures old(kernel.calls) <= kernel.calls
      ensures OnlyAt(x)
    {
      var ec := TryAgain(x);
      ghost var m := registered[x];
      if ec != OK {
        RemoveFromQueue(x);
        UpdateTwice(old(registered), x, m, registered[x]);
      }
      ExactWatches(registered[x], kernel.At(x));
    }

    method TryAgain(x: int) returns (ec: Errno)
      requires Inside(x) && Agreed() && registered[x].isRegistered && !registered[x].kind.PollOnly?
      requires Queued(registered[x], kernel.At(x)) && Settled(registered[x], x in kernel.pollOnly)
      modifies `pollFds, `pollFdsSize, `polling, `registered, `drifted
      modifies kernel`calls, kernel`queue, kernel`repoll, kernel`repollActive
      ensures Inside(x) && Agreed() && registered[x].isRegistered
      ensures registered == old(registered)[x := registered[x]] && Refiltered(old(registered)[x], registered[x])
      ensures drifted == (if ec == OK then old(drifted) - {x} else old(drifted)) && pollFds == old(pollFds)
      ensures ec == OK ==> Done(registered[x], kernel.At(x), x in kernel.pollOnly)
      ensures kernel.Clean(old(kernel.calls), kernel.calls) ==> ec == OK && FifoStays(old(registered)[x], registered[x])
      ensures old(kernel.calls) <= kernel.calls
      ensures OnlyAt(x)
    {
      assert registered[x].events == registered[x].KeptEvents() && !registered[x].onList;
      ec := RegisterEvents(x);
      assert !registered[x].onList;
      CleanKeeps(old(registered)[x], registered[x], kernel.At(x), ec, old(kernel.calls), x);
    }

    /** Registering anew where no call fails succeeds, and keeps the filters of a FIFO. */
    lemma CleanKeeps(n: Node, m: Node, w: Watched, ec: Errno, a: nat, x: int)
      requires kernel.Blamed(ec, a, kernel.calls, x, PardonOf(n.kind)) && PipeSettled(n, m, w, ec, a)
      requires n.kind == m.kind && n.events == m.events && m.Sound() && (ec == OK ==> Queued(m, w))
      requires n.kind.Fifo? && (n.has.read || n.has.write) ==> (n.has.read <==> n.Reads())
      requires PardonOf(n.kind) == Devices || x !in kernel.pollOnly
      ensures kernel.Clean(a, kernel.calls) ==> ec == OK && FifoStays(n, m)
    {
      kernel.CleanSucceeds(ec, a, kernel.calls, x, PardonOf(n.kind));
      if ec == OK {
        FifoExact(n, m, w);
      }
    }

    /** The event loop's body for an event of a file's filters. */
    method ProcessFile(x: int, ev: Event)
      requires Valid() && Reports() && Deliverable(File(x, ev), registered, kernel.queue)
      modifies `pollFds, `pollFdsSize, `polling, `registered, `drifted
      modifies kernel`calls, kernel`polled, kernel`queue, kernel`repoll, kernel`repollActive
      ensures Valid() && x in registered && registered == old(registered)[x := registered[x]]
      ensures Processed(old(registered)[x], registered[x], ev, kernel.Pending(old(kernel.polled))) && drifted <= old(drifted)
      ensures Polls(File(x, ev), old(registered)[x]) ==> kernel.polled > old(kernel.polled)
      ensures kernel.Clean(old(kernel.calls), kernel.calls) ==> FifoFed(old(registered)[x], registered[x], ev)
      ensures pollFds == old(pollFds) && OnlyAt(x) && old(kernel.calls) <= kernel.calls && old(kernel.polled) <= kernel.polled
      ensures kernel.Clean(old(kernel.calls), kernel.calls) ==>
                Followed(old(registered)[x], old(kernel.At(x)), registered[x], kernel.At(x))
    {
      var oldNeeded := registered[x].Needs();
      FeedInLoop(x, ev);
      ghost var m := registered[x];
      Refilter(x, oldNeeded);
      UpdateTwice(old(registered), x, m, registered[x]);
    }

    method FeedInLoop(x: int, ev: Event)
      requires Valid() && Reports() && Deliverable(File(x, ev), registered, kernel.queue)
      modifies `registered, kernel`polled
      ensures Inside(x) && Agreed() && registered == old(registered)[x := registered[x]]
      ensures FedTo(old(registered)[x], registered[x], ev, kernel.Pending(old(kernel.polled)))
      ensures kernel.polled == old(kernel.polled) + if old(registered)[x].kind.KQueue? && old(registered)[x].hasDesc then 1 else 0
      ensures var n, m, w := old(registered)[x], registered[x], kernel.At(x);
              && m.isRegistered && !m.kind.PollOnly? && Queued(m, w) && Settled(m, x in kernel.pollOnly)
              && (m.Leveled() && x !in drifted ==> NoFilters(w) || (w.read == n.Needs().read && w.write == n.Needs().write))
              && (n.revents != {} ==> m.revents != {})
    {
      FeedFile(x, ev);
      FedStays(old(registered)[x], registered[x], ev, kernel.Pending(old(kernel.polled)), kernel.At(x), x in kernel.pollOnly, x in drifted);
      Local(x);
      StillAgreed(x);
    }

    /** The event loop's body for the user event of a node. */
    method ProcessSelf(x: int)
      requires Valid() && Reports() && Deliverable(Self(x), registered, kernel.queue)
      modifies `pollFds, `pollFdsSize, `polling, `registered, `drifted
      modifies kernel`calls, kernel`polled, kernel`queue, kernel`repoll, kernel`repollActive
      ensures Valid() && x in registered && registered == old(registered)[x := registered[x]]
      ensures Kept(old(registered)[x], registered[x]) && registered[x].Reporting() && drifted <= old(drifted)
      ensures pollFds == old(pollFds) && OnlyAt(x) && old(kernel.calls) <= kernel.calls && old(kernel.polled) <= kernel.polled
      ensures SelfTold(old(registered)[x], registered[x], kernel.At(x), old(kernel.polled))
      ensures registered[x].kind.PollOnly? ==> kernel.polled > old(kernel.polled)
      ensures kernel.Clean(old(kernel.calls), kernel.calls) && registered[x].kind.Fifo? ==> registered[x].has.write
    {
      if registered[x].kind.PollOnly? {
        PollSelf(x);
      } else {
        RetryFifo(x);
      }
    }

    method RetryFifo(x: int)
      requires Valid() && Reports() && Deliverable(Self(x), registered, kernel.queue) && !registered[x].kind.PollOnly?
      modifies `pollFds, `pollFdsSize, `polling, `registered, `drifted
      modifies kernel`calls, kernel`polled, kernel`queue, kernel`repoll, kernel`repollActive
      ensures Valid() && x in registered && registered == old(registered)[x := registered[x]]
      ensures Kept(old(registered)[x], registered[x]) && registered[x].Reporting() && drifted <= old(drifted)
      ensures pollFds == old(pollFds) && OnlyAt(x) && old(kernel.calls) <= kernel.calls && old(kernel.polled) <= kernel.polled
      ensures Retried(old(registered)[x], registered[x], kernel.At(x))
      ensures kernel.Clean(old(kernel.calls), kernel.calls) && registered[x].kind.Fifo? ==> registered[x].has.write
    {
      var oldNeeded := registered[x].Needs();
      RetrySelf(x);
      ghost var m := registered[x];
      Refilter(x, oldNeeded);
      UpdateTwice(old(registered), x, m, registered[x]);
    }

    /** What the user event of a node comes to: a file that only poll can watch reports what poll
        said, a FIFO has tried again. */
    ghost predicate SelfTold(n: Node, m: Node, v: Watched, polled: nat) {
      if n.kind.PollOnly? then m == n.(revents := PollBits(kernel.ReplyAt(polled, n.events))) else Retried(n, m, v)
    }

    twostate lemma PollStill(x: int)
      requires old(Agreed()) && x in old(registered) && x in registered
      requires registered == old(registered)[x := registered[x]] && registered[x].events == old(registered)[x].events
      requires pollFds == old(pollFds) && polling == old(polling)
      ensures Agreed()
    {
    }

    method PollSelf(x: int)
      requires Valid() && Reports() && Deliverable(Self(x), registered, kernel.queue) && registered[x].kind.PollOnly?
      modifies `registered, kernel`polled
      ensures Valid() && x in registered && registered[x].Reporting() && kernel.polled > old(kernel.polled)
      ensures registered == old(registered)[x := registered[x]]
      ensures registered[x] == old(registered)[x].(revents := PollBits(kernel.ReplyAt(old(kernel.polled), old(registered)[x].events)))
    {
      FeedPoll(x);
      Local(x);
      PollStill(x);
    }

    method RetrySelf(x: int)
      requires Valid() && Reports() && Deliverable(Self(x), registered, kernel.queue) && !registered[x].kind.PollOnly?
      modifies `registered, kernel`calls, kernel`queue
      ensures Inside(x) && Agreed() && Queued(registered[x], kernel.At(x)) && registered[x].Reporting()
      ensures registered == old(registered)[x := old(registered)[x].(has := registered[x].has, revents := registered[x].revents)]
      ensures Retried(old(registered)[x], registered[x], kernel.At(x)) && old(kernel.calls) <= kernel.calls
      ensures kernel.Clean(old(kernel.calls), kernel.calls) ==> registered[x].has.write
      ensures OnlyAt(x)
    {
      FeedRetry(x);
      StillAgreed(x);
    }

    /** The body of the event loop; says whether the file is new among those to report. */
    method Process(e: KEvent) returns (news: bool)
      requires Valid() && Reports() && Deliverable(e, registered, kernel.queue)
      modifies `pollFds, `pollFdsSize, `polling, `registered, `drifted
      modifies kernel`calls, kernel`polled, kernel`queue, kernel`repoll, kernel`repollActive
      ensures Valid() && Reports() && pollFds == old(pollFds) && drifted <= old(drifted)
      ensures e.Repoll? ==> !news && registered == old(registered) && kernel.queue == old(kernel.queue)
      ensures !e.Repoll? ==>
                && e.fd in registered && registered == old(registered)[e.fd := registered[e.fd]]
                && Kept(old(registered)[e.fd], registered[e.fd]) && OnlyAt(e.fd)
                && (old(registered)[e.fd].revents != {} ==> registered[e.fd].revents != {})
                && (news <==> old(registered)[e.fd].revents == {} && registered[e.fd].revents != {})
      ensures old(kernel.calls) <= kernel.calls && old(kernel.polled) <= kernel.polled
      ensures !e.Repoll? && kernel.Clean(old(kernel.calls), kernel.calls) ==>
                Followed(old(registered)[e.fd], old(kernel.At(e.fd)), registered[e.fd], kernel.At(e.fd))
      ensures e.Self? ==> SelfTold(old(registered)[e.fd], registered[e.fd], kernel.At(e.fd), old(kernel.polled))
      ensures !e.Repoll? && Polls(e, old(registered)[e.fd]) ==> kernel.polled > old(kernel.polled)
      ensures e.Self? && registered[e.fd].kind.Fifo? && kernel.Clean(old(kernel.calls), kernel.calls) ==> registered[e.fd].has.write
      ensures e.File? ==>
                && Processed(old(registered)[e.fd], registered[e.fd], e.ev, kernel.Pending(old(kernel.polled)))
                && (kernel.Clean(old(kernel.calls), kernel.calls) ==> FifoFed(old(registered)[e.fd], registered[e.fd], e.ev))
    {
      if e.Repoll? {
        return false;
      }
      var oldRevents := registered[e.fd].revents;
      if e.File? {
        ProcessFile(e.fd, e.ev);
      } else {
        ProcessSelf(e.fd);
      }
      news := registered[e.fd].revents != {} && oldRevents == {};
    }

    /** Where a round starts. */
    ghost function Now(): Start
      reads `registered, kernel`queue, kernel`repollActive
    {
      Start(registered, kernel.queue, kernel.repollActive)
    }

    lemma LawfulMeans(batch: seq<KEvent>, cnt: int)
      requires Valid() && Idle() && Lawful(batch, cnt, Now())
      ensures forall k :: 0 <= k < |batch| && batch[k].File? ==> Deliverable(batch[k], registered, kernel.queue)
      ensures forall k :: 0 <= k < |batch| && batch[k].Self? ==>
                batch[k].fd in registered && kernel.At(batch[k].fd).self && (registered[batch[k].fd].kind.PollOnly? || registered[batch[k].fd].Waiting())
      ensures Apart(batch, registered)
    {
      forall k | 0 <= k < |batch| && !batch[k].Repoll?
        ensures batch[k].fd in registered && Good(registered[batch[k].fd], kernel.At(batch[k].fd), batch[k].fd in kernel.pollOnly, batch[k].fd in drifted)
        ensures May(registered[batch[k].fd], kernel.At(batch[k].fd))
      {
        assert Present(batch[k], Now());
        assert kernel.At(batch[k].fd) == UNWATCHED ==> May(registered[batch[k].fd], kernel.At(batch[k].fd));
      }
      forall k, l | 0 <= k < l < |batch| && !batch[k].Repoll? && !batch[l].Repoll? && batch[k].fd == batch[l].fd
        ensures batch[k].File? && batch[l].File? && !registered[batch[k].fd].kind.KQueue?
      {
        assert KeyOf(batch[k]) != KeyOf(batch[l]);
        assert Present(batch[k], Now()) && Present(batch[l], Now());
      }
    }

    /** The kevent call of `epollfd_ctx_wait`.  User events are reset when they are delivered. */
    method Receive(cnt: int) returns (batch: seq<KEvent>)
      requires Valid() && Idle() && cnt >= 0
      modifies kernel`queue, kernel`repollActive, kernel`deliveries
      ensures Valid() && |batch| <= cnt && Apart(batch, registered)
      ensures forall k :: 0 <= k < |batch| ==> Deliverable(batch[k], registered, kernel.queue)
      ensures batch == Taking(old(kernel.deliveries), cnt, old(Now()))
      ensures kernel.deliveries == if old(kernel.deliveries) == [] then [] else old(kernel.deliveries)[1..]
      ensures forall fd :: kernel.At(fd).read == old(kernel.At(fd)).read && kernel.At(fd).write == old(kernel.At(fd)).write
    {
      if |kernel.deliveries| == 0 {
        return [];
      }
      batch := kernel.deliveries[0];
      kernel.deliveries := kernel.deliveries[1..];
      if !Lawful(batch, cnt, Start(registered, kernel.queue, kernel.repollActive)) {
        return [];
      }
      HandOver(batch, cnt);
    }

    /** What one event does to the agreement of filters, to FIFOs, and to files that are polled
        upon it. */
    ghost predicate Stepped(m: Mark, e: KEvent)
      reads `registered, kernel
    {
      && m.calls <= kernel.calls && m.polled <= kernel.polled
      && (kernel.Clean(m.calls, kernel.calls) ==> ExactKept(m.nodes, m.queue, registered, kernel.queue))
      && (!e.Repoll? ==>
            && e.fd in m.nodes && e.fd in registered
            && StepTold(e, m.nodes[e.fd], registered[e.fd], m.polled, kernel.polled, kernel.Clean(m.calls, kernel.calls)))
    }

    ghost predicate StepTold(e: KEvent, n: Node, now: Node, a: nat, b: nat, clean: bool)
      requires !e.Repoll?
    {
      && (Polls(e, n) ==> a < b && Says(a, e, n, now))
      && (e.Self? && n.kind.Fifo? ==> n.has == NO_FLAGS && Tried(n, now) && (clean ==> now.has.write))
      && (e.File? && clean ==> FifoFed(n, now, e.ev))
    }

    /** The file reports what the n-th poll says to its event. */
    ghost predicate Says(n: nat, e: KEvent, before: Node, after: Node)
      requires !e.Repoll?
    {
      if e.Self? then after == before.(revents := PollBits(kernel.ReplyAt(n, before.events)))
      else after.revents == Feed(before, e.ev, kernel.Pending(n)).revents
    }

    /** What event `i` of a batch leaves to the events after it. */
    ghost predicate Advanced(batch: seq<KEvent>, i: nat, m: Mark)
      requires i < |batch|
      reads this, kernel
    {
      && Valid() && Reports() && Apart(batch, registered)
      && (forall k :: i < k < |batch| ==> Deliverable(batch[k], registered, kernel.queue))
      && SameFiles(m.nodes, registered) && Taken(m.nodes, registered, batch[i], kernel.Pending(m.polled))
      && Stepped(m, batch[i])
    }

    method HandOver(batch: seq<KEvent>, cnt: int)
      requires Valid() && Idle() && Lawful(batch, cnt, Now())
      modifies kernel`queue, kernel`repollActive
      ensures Valid() && Apart(batch, registered)
      ensures forall k :: 0 <= k < |batch| ==> Deliverable(batch[k], registered, kernel.queue)
      ensures forall fd :: kernel.At(fd).read == old(kernel.At(fd)).read && kernel.At(fd).write == old(kernel.At(fd)).write
    {
      LawfulMeans(batch, cnt);
      kernel.ResetUserEvents(batch);
    }

    /** One event of a batch. */
    method HandleEvent(batch: seq<KEvent>, i: nat, ghost who: seq<int>) returns (news: bool)
      requires i < |batch| && Valid() && Reports() && Apart(batch, registered) && Waiters(registered, who)
      requires forall k :: i <= k < |batch| ==> Deliverable(batch[k], registered, kernel.queue)
      modifies `pollFds, `pollFdsSize, `polling, `registered, `drifted
      modifies kernel`calls, kernel`polled, kernel`queue, kernel`repoll, kernel`repollActive
      ensures Advanced(batch, i, old(MarkNow())) && drifted <= old(drifted)
      ensures if news then !batch[i].Repoll? && Waiters(registered, who + [batch[i].fd]) else Waiters(registered, who)
    {
      ghost var m := MarkNow();
      news := Process(batch[i]);
      if !batch[i].Repoll? {
        assert forall fd :: fd != batch[i].fd ==> kernel.At(fd) == old(kernel.At(fd)) == AtIn(m.queue, fd);
        Advance(batch, i, m);
        WaitersGrow(batch[i].fd, news, who, m.nodes, registered);
      }
    }

    lemma Advance(batch: seq<KEvent>, i: nat, m: Mark)
      requires i < |batch| && !batch[i].Repoll? && Apart(batch, m.nodes) && Valid() && Reports()
      requires forall k :: i <= k < |batch| ==> Deliverable(batch[k], m.nodes, m.queue)
      requires var x := batch[i].fd;
               && x in m.nodes && x in registered && registered == m.nodes[x := registered[x]]
               && Kept(m.nodes[x], registered[x])
               && (batch[i].File? ==> Processed(m.nodes[x], registered[x], batch[i].ev, kernel.Pending(m.polled)))
               && (kernel.Clean(m.calls, kernel.calls) ==> Followed(m.nodes[x], AtIn(m.queue, x), registered[x], kernel.At(x)))
               && (batch[i].Self? ==> SelfTold(m.nodes[x], registered[x], kernel.At(x), m.polled))
               && (Polls(batch[i], m.nodes[x]) ==> kernel.polled > m.polled)
               && (batch[i].Self? && registered[x].kind.Fifo? && kernel.Clean(m.calls, kernel.calls) ==> registered[x].has.write)
               && (batch[i].File? && kernel.Clean(m.calls, kernel.calls) ==> FifoFed(m.nodes[x], registered[x], batch[i].ev))
               && forall fd :: fd != x ==> kernel.At(fd) == AtIn(m.queue, fd)
      requires m.calls <= kernel.calls && m.polled <= kernel.polled
      ensures Advanced(batch, i, m)
    {
      var x := batch[i].fd;
      forall fd | fd != x ensures AtIn(kernel.queue, fd) == AtIn(m.queue, fd) {
        assert kernel.At(fd) == AtIn(m.queue, fd);
      }
      StillDeliverable(batch, i, x, m.nodes, registered, m.queue, kernel.queue);
      ExactKeptFirst(x, m.nodes, m.queue, registered, kernel.queue);
    }

    /** `ev[j++].data.ptr = fd2_node`: there is room, as the buffer has room for the batch or for
        every registered file. */
    method Announce(news: bool, x: int, ev: array<EpollEvent>, j: nat, ghost who: seq<int>)
      returns (j': nat, ghost who': seq<int>)
      requires Waiters(registered, if news then who + [x] else who)
      requires |who| == j <= ev.Length && (j < ev.Length || |registered| <= ev.Length)
      requires forall k :: 0 <= k < j ==> ev[k].data == Pointer(who[k])
      modifies ev
      ensures Noted(ev, j', who') && j' == (if news then j + 1 else j) && who' == if news then who + [x] else who
      ensures forall k :: j' <= k < ev.Length ==> ev[k] == old(ev[k])
    {
      j', who' := j, who;
      if news {
        DistinctFit(who + [x], registered.Keys);
        assert |registered.Keys| == |registered|;
        ev[j] := EpollEvent({}, Pointer(x));
        j', who' := j + 1, who + [x];
      }
    }

    /** The event loop, over one batch. */
    method HandleBatch(batch: seq<KEvent>, ev: array<EpollEvent>) returns (j: nat, ghost who: seq<int>)
      requires Valid() && Idle() && Apart(batch, registered)
      requires forall k :: 0 <= k < |batch| ==> Deliverable(batch[k], registered, kernel.queue)
      requires |batch| <= ev.Length || |registered| <= ev.Length
      modifies `pollFds, `pollFdsSize, `polling, `registered, `drifted
      modifies kernel`calls, kernel`polled, kernel`queue, kernel`repoll, kernel`repollActive, ev
      ensures InBatch(batch, |batch|, old(MarkNow())) && Noted(ev, j, who)
      ensures j <= |batch| && drifted <= old(drifted)
      ensures forall k :: j <= k < ev.Length ==> ev[k] == old(ev[k])
    {
      j, who := 0, [];
      ghost var m := MarkNow();
      BatchBegins(batch, m);
      ghost var was, start := ev[..], drifted;
      for i := 0 to |batch|
        invariant Handling(batch, i, m, ev, j, who, was, start)
      {
        j, who := BatchStep(batch, i, ev, j, who, m, was, start);
      }
    }

    /** What the loop keeps. */
    ghost predicate Handling(batch: seq<KEvent>, i: nat, m: Mark, ev: array<EpollEvent>, j: nat, who: seq<int>,
                             was: seq<EpollEvent>, start: set<int>)
      reads this, kernel, ev
    {
      && InBatch(batch, i, m) && Noted(ev, j, who) && j <= i && drifted <= start
      && |was| == ev.Length && forall k :: j <= k < ev.Length ==> ev[k] == was[k]
    }

    lemma BatchBegins(batch: seq<KEvent>, m: Mark)
      requires Valid() && Idle() && Apart(batch, registered) && m == MarkNow()
      requires forall k :: 0 <= k < |batch| ==> Deliverable(batch[k], registered, kernel.queue)
      ensures InBatch(batch, 0, m) && Waiters(registered, [])
    {
    }

    /** The loop after the first `i` events of a batch. */
    ghost predicate InBatch(batch: seq<KEvent>, i: nat, m: Mark)
      reads this, kernel
    {
      && Valid() && Reports() && Apart(batch, registered)
      && (forall k :: i <= k < |batch| ==> Deliverable(batch[k], registered, kernel.queue))
      && i <= |batch| && Since(m)
      && Told(batch[..i], m.nodes, registered, m.polled, kernel.polled, kernel.Clean(m.calls, kernel.calls))
    }

    ghost function MarkNow(): Mark
      reads `registered, kernel`queue, kernel`calls, kernel`polled
    {
      Mark(registered, kernel.queue, kernel.calls, kernel.polled)
    }

    /** Unless a call has failed since, filters that agreed with their files agree still. */
    ghost predicate Since(m: Mark)
      reads `registered, kernel`queue, kernel`calls, kernel`polled
    {
      && m.calls <= kernel.calls && m.polled <= kernel.polled
      && (kernel.Clean(m.calls, kernel.calls) ==> ExactKept(m.nodes, m.queue, registered, kernel.queue))
    }

    /** What the events of a batch make of the nodes: sockets, ordinary files and, where no call
        has failed, FIFOs take their events in order; files that are polled upon an event report
        what poll says; a FIFO without a reader tries again; nothing happens to other files. */
    ghost predicate Told(batch: seq<KEvent>, was: map<int, Node>, now: map<int, Node>, a: nat, b: nat, clean: bool) {
      && SameFiles(was, now) && Folded(was, now, batch) && Untouched(was, now, batch)
      && (clean ==> FifosFolded(was, now, batch))
      && PollTold(batch, was, now, a, b) && RetryTold(batch, was, now, clean)
    }

    ghost predicate PollTold(batch: seq<KEvent>, was: map<int, Node>, now: map<int, Node>, a: nat, b: nat) {
      forall k :: 0 <= k < |batch| && !batch[k].Repoll? && batch[k].fd in was && Polls(batch[k], was[batch[k].fd]) ==>
        && batch[k].fd in now
        && exists n :: a <= n < b && Says(n, batch[k], was[batch[k].fd], now[batch[k].fd])
    }

    ghost predicate RetryTold(batch: seq<KEvent>, was: map<int, Node>, now: map<int, Node>, clean: bool) {
      forall k :: 0 <= k < |batch| && batch[k].Self? && batch[k].fd in was && was[batch[k].fd].kind.Fifo? ==>
        && batch[k].fd in now && Tried(was[batch[k].fd], now[batch[k].fd])
        && (clean ==> now[batch[k].fd].has.write)
    }

    lemma PollToldStep(batch: seq<KEvent>, i: nat, was: map<int, Node>, mid: map<int, Node>, now: map<int, Node>,
                       a: nat, b: nat, c: nat, pending: bool)
      requires i < |batch| && PollTold(batch[..i], was, mid, a, b) && a <= b <= c && Taken(mid, now, batch[i], pending)
      requires SameFiles(was, mid) && Apart(batch, mid) && Untouched(was, mid, batch[..i])
      requires var e := batch[i];
               !e.Repoll? && e.fd in mid && Polls(e, mid[e.fd]) ==> b < c && mid[e.fd].revents == {} && Says(b, e, mid[e.fd], now[e.fd])
      ensures PollTold(batch[..i + 1], was, now, a, c)
    {
      var g := batch[..i + 1];
      forall k | 0 <= k < |g| && !g[k].Repoll? && g[k].fd in was && Polls(g[k], was[g[k].fd])
        ensures g[k].fd in now && exists n :: a <= n < c && Says(n, g[k], was[g[k].fd], now[g[k].fd])
      {
        var x := g[k].fd;
        assert Kept(was[x], mid[x]);
        if k < i {
          assert batch[..i][k] == g[k];
          assert !Concerns(batch[i], x);
          var n :| a <= n < b && Says(n, g[k], was[x], mid[x]);
          assert Says(n, g[k], was[x], now[x]);
        } else {
          forall l | 0 <= l < i && g[k].Self? ensures !Concerns(batch[..i][l], x) {
            assert batch[..i][l] == batch[l];
          }
          assert Says(b, g[k], was[x], now[x]);
        }
      }
    }

    lemma RetryToldStep(batch: seq<KEvent>, i: nat, was: map<int, Node>, mid: map<int, Node>, now: map<int, Node>,
                        before: bool, clean: bool, pending: bool)
      requires i < |batch| && RetryTold(batch[..i], was, mid, before) && (clean ==> before) && Taken(mid, now, batch[i], pending)
      requires SameFiles(was, mid) && Apart(batch, mid)
      requires var e := batch[i];
               e.Self? && e.fd in mid && mid[e.fd].kind.Fifo? ==> Tried(mid[e.fd], now[e.fd]) && (clean ==> now[e.fd].has.write)
      ensures RetryTold(batch[..i + 1], was, now, clean)
    {
      var g := batch[..i + 1];
      forall k | 0 <= k < |g| && g[k].Self? && g[k].fd in was && was[g[k].fd].kind.Fifo?
        ensures g[k].fd in now && Tried(was[g[k].fd], now[g[k].fd]) && (clean ==> now[g[k].fd].has.write)
      {
        var x := g[k].fd;
        assert Kept(was[x], mid[x]);
        if k < i {
          assert batch[..i][k] == g[k];
          assert !Concerns(batch[i], x);
        }
      }
    }

    /** One more event. */
    lemma ToldStep(batch: seq<KEvent>, i: nat, was: map<int, Node>, mid: map<int, Node>, now: map<int, Node>,
                   a: nat, b: nat, c: nat, before: bool, step: bool, clean: bool)
      requires i < |batch| && Told(batch[..i], was, mid, a, b, before) && (clean ==> before && step) && a <= b <= c
      requires Apart(batch, mid) && SameFiles(mid, now) && Taken(mid, now, batch[i], kernel.Pending(b))
      requires var e := batch[i];
               !e.Repoll? ==>
                 && e.fd in mid && e.fd in now && StepTold(e, mid[e.fd], now[e.fd], b, c, step)
                 && (Polls(e, mid[e.fd]) ==> mid[e.fd].revents == {})
      ensures Told(batch[..i + 1], was, now, a, c, clean)
    {
      FoldedStep(was, mid, now, batch, i, kernel.Pending(b));
      UntouchedStep(was, mid, now, batch, i, kernel.Pending(b));
      if clean {
        FifosFoldedStep(was, mid, now, batch, i, kernel.Pending(b));
      }
      PollToldStep(batch, i, was, mid, now, a, b, c, kernel.Pending(b));
      RetryToldStep(batch, i, was, mid, now, before, clean, kernel.Pending(b));
    }

    /** In a wider range of polls, and with less that is known not to have failed. */
    lemma ToldWider(batch: seq<KEvent>, was: map<int, Node>, now: map<int, Node>, a: nat, b: nat, c: nat, d: nat, clean: bool, less: bool)
      requires Told(batch, was, now, b, c, clean) && a <= b && c <= d && (less ==> clean)
      ensures Told(batch, was, now, a, d, less)
    {
      forall k | 0 <= k < |batch| && !batch[k].Repoll? && batch[k].fd in was && Polls(batch[k], was[batch[k].fd])
        ensures exists n :: a <= n < d && Says(n, batch[k], was[batch[k].fd], now[batch[k].fd])
      {
        var n :| b <= n < c && Says(n, batch[k], was[batch[k].fd], now[batch[k].fd]);
      }
    }

    /** The first `j` entries point to the files that have something to report. */
    ghost predicate Noted(ev: array<EpollEvent>, j: nat, who: seq<int>)
      reads `registered, ev
    {
      && j == |who| && j <= ev.Length && Waiters(registered, who)
      && forall k :: 0 <= k < j ==> ev[k].data == Pointer(who[k])
    }

    lemma SinceStep(m: Mark, mid: Mark)
      requires m.calls <= mid.calls <= kernel.calls && m.polled <= mid.polled <= kernel.polled
      requires kernel.Clean(m.calls, mid.calls) ==> ExactKept(m.nodes, m.queue, mid.nodes, mid.queue)
      requires kernel.Clean(mid.calls, kernel.calls) ==> ExactKept(mid.nodes, mid.queue, registered, kernel.queue)
      ensures Since(m)
    {
      if kernel.Clean(m.calls, kernel.calls) {
        ExactKeptOn(m.nodes, m.queue, mid.nodes, mid.queue, registered, kernel.queue);
      }
    }

    /** One event, seen from the start of the batch. */
    method BatchStep(batch: seq<KEvent>, i: nat, ev: array<EpollEvent>, j: nat, ghost who: seq<int>, ghost m: Mark,
                     ghost was: seq<EpollEvent>, ghost start: set<int>)
      returns (j': nat, ghost who': seq<int>)
      requires i < |batch| && Handling(batch, i, m, ev, j, who, was, start) && (|batch| <= ev.Length || |m.nodes| <= ev.Length)
      modifies `pollFds, `pollFdsSize, `polling, `registered, `drifted
      modifies kernel`calls, kernel`polled, kernel`queue, kernel`repoll, kernel`repollActive, ev
      ensures Handling(batch, i + 1, m, ev, j', who', was, start)
    {
      SameSize(m.nodes, registered);
      ghost var mid := MarkNow();
      j', who' := EventStep(batch, i, ev, j, who);
      BatchGrows(batch, i, m, mid);
    }

    lemma BatchGrows(batch: seq<KEvent>, i: nat, m: Mark, mid: Mark)
      requires i < |batch| && Advanced(batch, i, mid) && Apart(batch, mid.nodes)
      requires !batch[i].Repoll? && batch[i].fd in mid.nodes && Polls(batch[i], mid.nodes[batch[i].fd]) ==> mid.nodes[batch[i].fd].revents == {}
      requires Told(batch[..i], m.nodes, mid.nodes, m.polled, mid.polled, kernel.Clean(m.calls, mid.calls))
      requires m.calls <= mid.calls <= kernel.calls && m.polled <= mid.polled <= kernel.polled
      requires kernel.Clean(m.calls, mid.calls) ==> ExactKept(m.nodes, m.queue, mid.nodes, mid.queue)
      ensures InBatch(batch, i + 1, m)
    {
      SinceStep(m, mid);
      ToldStep(batch, i, m.nodes, mid.nodes, registered, m.polled, mid.polled, kernel.polled,
               kernel.Clean(m.calls, mid.calls), kernel.Clean(mid.calls, kernel.calls), kernel.Clean(m.calls, kernel.calls));
    }

    method EventStep(batch: seq<KEvent>, i: nat, ev: array<EpollEvent>, j: nat, ghost who: seq<int>)
      returns (j': nat, ghost who': seq<int>)
      requires i < |batch| && Valid() && Reports() && Apart(batch, registered)
      requires forall k :: i <= k < |batch| ==> Deliverable(batch[k], registered, kernel.queue)
      requires Noted(ev, j, who) && (j < ev.Length || |registered| <= ev.Length)
      modifies `pollFds, `pollFdsSize, `polling, `registered, `drifted
      modifies kernel`calls, kernel`polled, kernel`queue, kernel`repoll, kernel`repollActive, ev
      ensures Advanced(batch, i, old(MarkNow())) && drifted <= old(drifted)
      ensures Noted(ev, j', who') && j <= j' <= j + 1
      ensures forall k :: j' <= k < ev.Length ==> ev[k] == old(ev[k])
    {
      var news := HandleEvent(batch, i, who);
      SameSize(old(registered), registered);
      j', who' := Announce(news, if news then batch[i].fd else 0, ev, j, who);
    }

    // -- completing reports --

    /** `registered_fds_node_register_for_completion`: asks once for the events of filters that
        have not been seen yet. */
    method RegisterForCompletion(asked: set<Key>, x: int) returns (now: set<Key>)
      requires x in registered && registered[x].fd == x
      ensures now == asked + Unseen(registered[x])
    {
      now := asked;
      var n := registered[x];
      if n.has.read && !n.got.read {
        now := now + {FileKey(x, Read)};
      }
      if n.has.write && !n.got.write {
        now := now + {FileKey(x, Write)};
      }
      if n.has.except && !n.got.except {
        now := now + {FileKey(x, Except)};
      }
    }

    /** The loop that registers for completion: edge-triggered files, and every file when the
        last call of kevent filled its buffer. */
    method RegisterCompletions(ev: array<EpollEvent>, j: nat, full: bool, ghost who: seq<int>) returns (asked: set<Key>)
      requires Valid() && Reports() && Noted(ev, j, who)
      ensures asked == AskedOf(registered, who, full) && AllAwaited(asked, registered, !full)
    {
      asked := {};
      for i := 0 to j
        invariant asked == AskedOf(registered, who[..i], full) && AllAwaited(asked, registered, !full)
      {
        var x := ev[i].data.fd;
        assert x == who[i];
        AskedNext(registered, who, i, full);
        if full || registered[x].edge {
          UnseenAwaited(x, registered[x], registered);
          asked := RegisterForCompletion(asked, x);
        }
      }
      assert who[..j] == who;
    }

    /** `registered_fds_node_complete`: feeds what was asked for, each event once, and leaves the
        filters as they are. */
    method Complete(asked: set<Key>, ghost who: seq<int>, ghost edges: bool)
      requires Completing(asked, who, edges, registered, [])
      modifies `registered, `drifted, kernel`polled, kernel`deliveries
      ensures Completing(asked, who, edges, old(registered), Completion(old(kernel.deliveries), asked))
      ensures asked == {} ==> registered == old(registered) && kernel.deliveries == old(kernel.deliveries) && drifted == old(drifted)
      ensures |kernel.deliveries| <= |old(kernel.deliveries)| && (edges ==> drifted == old(drifted))
      ensures old(kernel.polled) <= kernel.polled
    {
      if asked == {} {
        NothingAsked(kernel.deliveries);
        return;
      }
      var left := asked;
      ghost var was, all := registered, Completion(kernel.deliveries, asked);
      ghost var done: seq<KEvent> := [];
      while |kernel.deliveries| != 0
        invariant left <= asked && Completing(asked, who, edges, was, done)
        invariant done + Completion(kernel.deliveries, left) == all
        invariant |kernel.deliveries| <= |old(kernel.deliveries)| && (edges ==> drifted == old(drifted))
        invariant old(kernel.polled) <= kernel.polled
        decreases |kernel.deliveries|
      {
        var more;
        more, left, done := CompleteRound(left, asked, who, edges, was, done);
        if !more {
          return;
        }
      }
      assert done + [] == done;
    }

    /** One call of kevent for completions, of which `left` are still asked for. */
    method CompleteRound(left: set<Key>, ghost asked: set<Key>, ghost who: seq<int>, ghost edges: bool,
                         ghost was: map<int, Node>, ghost done: seq<KEvent>)
      returns (more: bool, left': set<Key>, ghost done': seq<KEvent>)
      requires Completing(asked, who, edges, was, done) && left <= asked && kernel.deliveries != []
      modifies `registered, `drifted, kernel`polled, kernel`deliveries
      ensures Completing(asked, who, edges, was, done') && left' <= left && (edges ==> drifted == old(drifted))
      ensures done + Completion(old(kernel.deliveries), left) == if more then done' + Completion(kernel.deliveries, left') else done'
      ensures kernel.deliveries == old(kernel.deliveries)[1..] && old(kernel.polled) <= kernel.polled
    {
      var batch := kernel.deliveries[0];
      kernel.deliveries := kernel.deliveries[1..];
      if batch == [] || !LawfulCompletion(batch, left) {
        assert done + [] == done;
        return false, left, done;
      }
      more, left' := true, left - KeysOf(batch);
      CompletionFirst(old(kernel.deliveries), left, done);
      LawfulAsked(batch, left, asked);
      CompleteBatch(batch, asked, who, edges, was, done);
      done' := done + batch;
    }

    /** In the completion pass over nodes that were `was` before, with the events `done`. */
    ghost predicate Completing(asked: set<Key>, who: seq<int>, edges: bool, was: map<int, Node>, done: seq<KEvent>)
      reads this, kernel
    {
      && Valid() && Reports() && Waiters(registered, who) && AllAwaited(asked, registered, edges)
      && Extended(was, registered, done)
    }

    method CompleteBatch(batch: seq<KEvent>, ghost asked: set<Key>, ghost who: seq<int>, ghost edges: bool,
                         ghost was: map<int, Node>, ghost done: seq<KEvent>)
      requires Completing(asked, who, edges, was, done)
      requires forall k :: 0 <= k < |batch| ==> batch[k].File? && KeyOf(batch[k]) in asked
      modifies `registered, `drifted, kernel`polled
      ensures Completing(asked, who, edges, was, done + batch) && (edges ==> drifted == old(drifted))
      ensures old(kernel.polled) <= kernel.polled
    {
      ghost var d := done;
      for i := 0 to |batch|
        invariant Completing(asked, who, edges, was, d) && d == done + batch[..i] && (edges ==> drifted == old(drifted))
        invariant old(kernel.polled) <= kernel.polled
      {
        CompleteOne(batch[i].fd, batch[i].ev, asked, who, edges, was, d);
        Prefixed(done, batch, i);
        d := d + [batch[i]];
      }
      assert batch[..|batch|] == batch;
    }

    static lemma Prefixed(done: seq<KEvent>, batch: seq<KEvent>, i: nat)
      requires i < |batch|
      ensures done + batch[..i] + [batch[i]] == done + batch[..i + 1]
    {
    }

    method CompleteOne(x: int, ev: Event, ghost asked: set<Key>, ghost who: seq<int>, ghost edges: bool,
                       ghost was: map<int, Node>, ghost done: seq<KEvent>)
      requires Completing(asked, who, edges, was, done) && FileKey(x, ev.filter) in asked
      modifies `registered, `drifted, kernel`polled
      ensures Completing(asked, who, edges, was, done + [File(x, ev)]) && (edges ==> drifted == old(drifted))
      ensures old(kernel.polled) <= kernel.polled
    {
      assert Awaited(FileKey(x, ev.filter), registered);
      ghost var nodes := registered;
      FeedCompletion(x, ev);
      WaitersGrow(x, false, who, nodes, registered);
      AwaitedStay(x, asked, edges, nodes, registered);
      ExtendedStep(x, ev, kernel.Pending(old(kernel.polled)), was, nodes, registered, done);
    }

    method FeedCompletion(x: int, ev: Event)
      requires Valid() && Reports() && x in registered && Feedable(registered[x], ev) && !registered[x].kind.KQueue?
      modifies `registered, `drifted, kernel`polled
      ensures Valid() && Reports() && x in registered && registered == old(registered)[x := registered[x]]
      ensures registered[x] == Feed(old(registered)[x], ev, kernel.Pending(old(kernel.polled))) && Kept(old(registered)[x], registered[x])
      ensures old(registered)[x].revents <= registered[x].revents
      ensures drifted == old(drifted) +
                if registered[x].Leveled() && registered[x].Needs().Filters() != old(registered)[x].Needs().Filters() then {x} else {}
      ensures old(kernel.polled) <= kernel.polled
    {
      ghost var n := registered[x];
      FedGrows(n.kind, Bits(n.events), n.Reading(), n.Progress(), ev);
      FeedInLoop(x, ev);
      Drift(x, n.Needs());
    }

    /** Ghost state only: the completion pass leaves filters that are not those needed now. */
    ghost method Drift(x: int, oldNeeded: Needed)
      requires Inside(x) && Agreed() && Reports() && registered[x].isRegistered && !registered[x].kind.PollOnly?
      requires Queued(registered[x], kernel.At(x)) && Settled(registered[x], x in kernel.pollOnly)
      requires registered[x].Leveled() && x !in drifted ==>
                 NoFilters(kernel.At(x)) || (kernel.At(x).read == oldNeeded.read && kernel.At(x).write == oldNeeded.write)
      modifies `drifted
      ensures Valid() && Reports()
      ensures drifted == old(drifted) + if registered[x].Leveled() && registered[x].Needs().Filters() != oldNeeded.Filters() then {x} else {}
    {
      if registered[x].Leveled() && registered[x].Needs().Filters() != oldNeeded.Filters() {
        drifted := drifted + {x};
      }
    }

    // -- handing out reports --

    /** The end of the wait for one file. */
    method TakeReport(x: int)
      requires Valid() && x in registered
      modifies `pollFds, `pollFdsSize, `polling, `registered, kernel`repollActive, kernel`queue
      ensures Valid() && x in registered
      ensures registered == old(registered)[x := registered[x]]
      ensures Cleared(old(registered)[x], registered[x])
      ensures OnlyAt(x) && (if old(registered)[x].oneshot then kernel.At(x) == UNWATCHED else kernel.queue == old(kernel.queue))
    {
      Reset(x);
      if registered[x].oneshot {
        RemoveFromQueue(x);
      }
    }

    method Reset(x: int)
      requires Valid() && x in registered
      modifies `registered
      ensures Valid() && registered == old(registered)[x := old(registered)[x].(revents := {}, got := NO_FLAGS)]
    {
      registered := registered[x := registered[x].(revents := {}, got := NO_FLAGS)];
      Local(x);
      PollStill(x);
    }

    method HandOut(ev: array<EpollEvent>, j: nat, ghost who: seq<int>)
      requires Valid() && Reports() && Noted(ev, j, who)
      modifies `pollFds, `pollFdsSize, `polling, `registered, kernel`repollActive, kernel`queue, ev
      ensures ExactKept(old(registered), old(kernel.queue), registered, kernel.queue)
      ensures Valid() && Idle() && Handed(old(registered), registered, who, j)
      ensures forall k :: 0 <= k < j ==> ev[k] == ReportOf(old(registered), who[k])
      ensures forall k :: j <= k < ev.Length ==> ev[k] == old(ev[k])
    {
      for i := 0 to j
        invariant ExactKept(old(registered), old(kernel.queue), registered, kernel.queue)
        invariant Valid() && Handed(old(registered), registered, who, i)
        invariant forall k :: 0 <= k < i ==> ev[k] == ReportOf(old(registered), who[k])
        invariant forall k :: i <= k < j ==> ev[k].data == Pointer(who[k])
        invariant forall k :: j <= k < ev.Length ==> ev[k] == old(ev[k])
      {
        HandOne(ev, i, who, old(registered), old(kernel.queue));
      }
      HandedAll(old(registered), registered, who);
    }

    lemma ClearedExact(x: int, was: map<int, Node>, wasQueue: map<int, Watched>, nodes: map<int, Node>, queue: map<int, Watched>)
      requires ExactKept(was, wasQueue, nodes, queue) && x in nodes && x in registered && nodes[x].Sound()
      requires registered == nodes[x := registered[x]] && Cleared(nodes[x], registered[x])
      requires forall fd :: fd != x ==> kernel.At(fd) == AtIn(queue, fd)
      requires !nodes[x].oneshot ==> kernel.queue == queue
      ensures ExactKept(was, wasQueue, registered, kernel.queue)
    {
      forall fd | fd != x ensures AtIn(kernel.queue, fd) == AtIn(queue, fd) {
        assert kernel.At(fd) == AtIn(queue, fd);
      }
      ExactKeptStep(was, wasQueue, nodes, queue, x, registered, kernel.queue);
    }

    method HandOne(ev: array<EpollEvent>, i: nat, ghost who: seq<int>, ghost was: map<int, Node>, ghost wasQueue: map<int, Watched>)
      requires Valid() && Handed(was, registered, who, i) && i < |who| <= ev.Length && Waiters(was, who)
      requires ExactKept(was, wasQueue, registered, kernel.queue)
      requires ev[i].data == Pointer(who[i])
      modifies `pollFds, `pollFdsSize, `polling, `registered, kernel`repollActive, kernel`queue, ev
      ensures ExactKept(was, wasQueue, registered, kernel.queue)
      ensures Valid() && Handed(was, registered, who, i + 1)
      ensures ev[i] == ReportOf(was, who[i])
      ensures forall k :: 0 <= k < ev.Length && k != i ==> ev[k] == old(ev[k])
    {
      var x := ev[i].data.fd;
      assert registered[x] == was[x];
      ev[i] := EpollEvent(registered[x].revents, User(registered[x].data));
      ghost var nodes, queue := registered, kernel.queue;
      TakeReport(x);
      HandedStep(was, nodes, registered, who, i);
      ClearedExact(x, was, wasQueue, nodes, queue);
    }

    // -- epoll_wait --

    /** What poll says of the first `len` slots, from its answer `n0` onwards. */
    ghost predicate Surveyed(slots: seq<PollFd>, len: nat, n0: nat) {
      && len <= |slots|
      && forall k :: 0 <= k < len ==> slots[k] == Filled(slots[k], kernel.ReplyAt(n0 + k, slots[k].events))
    }

    /** A slot with poll's answer. */
    static function Filled(p: PollFd, reply: PollReply): PollFd {
      p.(revents := if reply.Ready? then reply.bits else {}, invalid := reply.Invalid?)
    }

    /** poll on the snapshot: how many slots have something to tell. */
    method PollAll(len: nat) returns (ec: Errno, n: int)
      requires len <= pfds.Length
      modifies pfds, kernel`calls, kernel`polled
      ensures ec == kernel.answers(old(kernel.calls)) && kernel.calls == old(kernel.calls) + 1
      ensures kernel.polled == old(kernel.polled) + if ec == OK then len else 0
      ensures ec == OK ==> Surveyed(pfds[..], len, old(kernel.polled)) && 0 <= n <= len && (n == 0 <==> Silent(pfds[..], len))
      ensures forall k :: 0 <= k < pfds.Length ==> pfds[k].fd == old(pfds[k].fd) && pfds[k].events == old(pfds[k].events)
    {
      n := 0;
      ec := kernel.Call();
      if ec != OK {
        return;
      }
      for i := 0 to len
        invariant 0 <= n <= i && (n == 0 <==> Silent(pfds[..], i)) && kernel.calls == old(kernel.calls) + 1
        invariant kernel.polled == old(kernel.polled) + i && Surveyed(pfds[..], i, old(kernel.polled))
        invariant forall k :: 0 <= k < pfds.Length ==> pfds[k].fd == old(pfds[k].fd) && pfds[k].events == old(pfds[k].events)
      {
        ghost var slots := pfds[..];
        var found := PollSlot(i);
        n := n + if found then 1 else 0;
        SlotFilled(slots, pfds[..], i, old(kernel.polled));
      }
    }

    /** poll on one file. */
    method PollSlot(i: nat) returns (found: bool)
      requires i < pfds.Length
      modifies pfds, kernel`polled
      ensures kernel.polled == old(kernel.polled) + 1
      ensures pfds[..] == old(pfds[..])[i := Filled(old(pfds[i]), kernel.ReplyAt(old(kernel.polled), old(pfds[i].events)))]
      ensures found <==> pfds[i].revents != {} || pfds[i].invalid
    {
      var reply := kernel.PollOne(pfds[i].events);
      match reply
      case Failed =>
        pfds[i] := pfds[i].(revents := {}, invalid := false);
        found := false;
      case Invalid =>
        pfds[i] := pfds[i].(revents := {}, invalid := true);
        found := true;
      case Ready(bits) =>
        pfds[i] := pfds[i].(revents := bits, invalid := false);
        found := bits != {};
    }

    lemma SlotFilled(was: seq<PollFd>, now: seq<PollFd>, i: nat, n0: nat)
      requires i < |was| == |now| && now == was[i := now[i]] && Surveyed(was, i, n0)
      requires now[i] == Filled(was[i], kernel.ReplyAt(n0 + i, was[i].events))
      ensures Surveyed(now, i + 1, n0)
      ensures Silent(now, i + 1) <==> Silent(was, i) && now[i].revents == {} && !now[i].invalid
    {
      assert forall k :: 0 <= k < i ==> now[k] == was[k];
    }

    /** Takes the answers of poll to the nodes of the list: a file that is no longer valid goes,
        one that is ready gets its user event.  The list shrinks under the loop. */
    method Sweep()
      requires Valid() && Idle() && pfds.Length >= 1 + |pollFds|
      modifies `pollFds, `pollFdsSize, `polling, `registered, `registeredSize, kernel`repollActive, kernel`queue
      ensures Valid() && Idle()
      ensures Swept(old(registered), registered, old(pollFds), pfds[..], |old(pollFds)|)
      ensures forall fd :: fd !in old(pollFds) ==> kernel.At(fd) == old(kernel.At(fd))
      ensures Active(old(pollFds), pfds[..], |old(pollFds)|, kernel.queue)
    {
      var listed := pollFds;
      for i := 0 to |listed|
        invariant Valid() && Idle() && pfds.Length >= 1 + |listed|
        invariant Swept(old(registered), registered, listed, pfds[..], i)
        invariant forall k :: i <= k < |listed| ==> listed[k] in pollFds
        invariant forall fd :: fd !in listed ==> kernel.At(fd) == old(kernel.At(fd))
        invariant Active(listed, pfds[..], i, kernel.queue)
        invariant forall k, l :: 0 <= k < l < |listed| ==> listed[k] != listed[l]
      {
        assert listed[i] in pollFds;
        ghost var nodes, queue := registered, kernel.queue;
        SweepOne(listed[i], pfds[1 + i]);
        StillActive(listed, pfds[..], i, queue);
        SweptStep(old(registered), nodes, registered, listed, pfds[..], i);
      }
    }

    lemma StillActive(listed: seq<int>, slots: seq<PollFd>, i: nat, queue: map<int, Watched>)
      requires i < |listed| < |slots| && forall k, l :: 0 <= k < l < |listed| ==> listed[k] != listed[l]
      requires Active(listed, slots, i, queue)
      requires forall fd :: fd != listed[i] ==> kernel.At(fd) == AtIn(queue, fd)
      requires !slots[1 + i].invalid && slots[1 + i].revents != {} ==> kernel.At(listed[i]).active
      ensures Active(listed, slots, i + 1, kernel.queue)
    {
      forall k | 0 <= k < i ensures kernel.At(listed[k]) == AtIn(queue, listed[k]) {
        assert listed[k] != listed[i];
      }
    }

    method SweepOne(x: int, p: PollFd)
      requires Valid() && Idle() && x in pollFds
      modifies `pollFds, `pollFdsSize, `polling, `registered, `registeredSize, kernel`repollActive, kernel`queue
      ensures Valid() && Idle()
      ensures registered == if p.invalid then old(registered) - {x} else old(registered)
      ensures OnlyAt(x) && (!p.invalid && p.revents != {} ==> kernel.At(x).active)
      ensures forall fd :: fd in old(pollFds) && fd != x ==> fd in pollFds
    {
      if p.invalid {
        RemoveListed(x);
      } else if p.revents != {} {
        kernel.TriggerSelf(x);
      }
    }

    method RemoveListed(x: int)
      requires Valid() && Idle() && x in pollFds
      modifies `pollFds, `pollFdsSize, `polling, `registered, `registeredSize, kernel`repollActive, kernel`queue
      ensures Valid() && Idle() && registered == old(registered) - {x}
      ensures OnlyAt(x)
      ensures forall fd :: fd in old(pollFds) && fd != x ==> fd in pollFds
    {
      ghost var list := pollFds;
      RemoveNode(x);
      ghost var i :| 0 <= i < |list| && list[i] == x && pollFds == Without(list, i);
      WithoutElements(list, i);
    }

    /** One round of `epollfd_ctx_wait` after `again:`; `n` is what kevent returned. */
    method Round(ev: array<EpollEvent>, cnt: int)
      returns (ec: Errno, n: int, j: nat, ghost who: seq<int>, ghost p: Pass)
      requires Valid() && Idle() && 1 <= cnt && (cnt <= ev.Length || |registered| <= ev.Length)
      modifies `pollFds, `pollFdsSize, `polling, `registered, `drifted
      modifies kernel`calls, kernel`polled, kernel`queue, kernel`repoll, kernel`repollActive, kernel`deliveries, ev
      ensures Valid() && Idle() && SameSettings(old(registered), registered)
      ensures forall k :: 0 <= k < ev.Length && (ec == OK ==> j <= k) ==> ev[k] == old(ev[k])
      ensures ec == OK ==> RoundMade(old(MarkNow()), old(Now()), old(kernel.deliveries), cnt, ev, n, j, who, p)
      ensures old(kernel.calls) < kernel.calls && old(kernel.polled) <= kernel.polled
      ensures ec == OK && (n != cnt || j == 0) ==> drifted <= old(drifted)
      ensures ec != OK ==> kernel.LastFailed(ec, old(kernel.calls))
    {
      n, j, who, p := 0, 0, [], Pass(Now(), [], map[], []);
      ec := kernel.Call();
      if ec == OK {
        n, j, who, p := Serve(ev, cnt);
        MadeFrom(old(MarkNow()), old(kernel.calls) + 1, old(Now()), old(kernel.deliveries), cnt, ev, n, j, who, p);
      }
    }

    /** What a round has made, from `start` and `m`, of the batches `ds` to come. */
    ghost predicate RoundMade(m: Mark, start: Start, ds: seq<seq<KEvent>>, cnt: int, ev: array<EpollEvent>, n: int, j: nat,
                              who: seq<int>, p: Pass)
      reads this, kernel, ev
    {
      && RoundEnded(start, ds, cnt, ev, n, j, who, p)
      && Told(p.took, p.start.nodes, p.told, m.polled, kernel.polled, kernel.Clean(m.calls, kernel.calls))
      && (n != cnt || j == 0 ==> Since(m))
    }

    ghost predicate RoundEnded(start: Start, ds: seq<seq<KEvent>>, cnt: int, ev: array<EpollEvent>, n: int, j: nat,
                               who: seq<int>, p: Pass)
      reads this, kernel, ev
    {
      && p.start == start && p.took == Taking(ds, cnt, start) && n == |p.took| <= cnt && j <= n
      && SameFiles(p.start.nodes, p.told) && Addressed(p.took, p.start.nodes) && Sensible(p.told)
      && Handled(p, Tail(ds), ev[..], j, who, n == cnt) && Entries(registered, ev[..], j, who)
      && Finished(p.told, registered, who, p.extra) && (j == 0 ==> registered == p.told && kernel.deliveries == Tail(ds))
    }

    /** The same seen from before a call that succeeded. */
    lemma MadeFrom(m: Mark, calls: nat, start: Start, ds: seq<seq<KEvent>>, cnt: int, ev: array<EpollEvent>, n: int, j: nat,
                   who: seq<int>, p: Pass)
      requires m.calls <= calls <= kernel.calls && m.polled <= kernel.polled
      requires RoundMade(m.(calls := calls), start, ds, cnt, ev, n, j, who, p)
      ensures RoundMade(m, start, ds, cnt, ev, n, j, who, p)
    {
      ToldWider(p.took, p.start.nodes, p.told, m.polled, m.polled, kernel.polled, kernel.polled,
                kernel.Clean(calls, kernel.calls), kernel.Clean(m.calls, kernel.calls));
    }

    /** A round whose call of kevent succeeds. */
    method Serve(ev: array<EpollEvent>, cnt: int) returns (n: int, j: nat, ghost who: seq<int>, ghost p: Pass)
      requires Valid() && Idle() && 1 <= cnt && (cnt <= ev.Length || |registered| <= ev.Length)
      modifies `pollFds, `pollFdsSize, `polling, `registered, `drifted
      modifies kernel`calls, kernel`polled, kernel`queue, kernel`repoll, kernel`repollActive, kernel`deliveries, ev
      ensures Valid() && Idle() && SameSettings(old(registered), registered)
      ensures forall k :: j <= k < ev.Length ==> ev[k] == old(ev[k])
      ensures RoundMade(old(MarkNow()), old(Now()), old(kernel.deliveries), cnt, ev, n, j, who, p)
      ensures old(kernel.calls) <= kernel.calls && old(kernel.polled) <= kernel.polled
      ensures n != cnt || j == 0 ==> drifted <= old(drifted)
    {
      ghost var m, start, ds := MarkNow(), Now(), kernel.deliveries;
      ghost var took;
      n, j, who, took := Gather(ev, cnt);
      p := Deliver(ev, n, cnt, j, who, took, m, start, ds);
    }

    /** The rest of the round, after its event loop. */
    method Deliver(ev: array<EpollEvent>, n: int, cnt: int, j: nat, ghost who: seq<int>, ghost took: seq<KEvent>,
                   ghost m: Mark, ghost start: Start, ghost ds: seq<seq<KEvent>>)
      returns (ghost p: Pass)
      requires Valid() && Reports() && Noted(ev, j, who) && Gathered(m, MarkNow(), took, who)
      requires start.nodes == m.nodes && n == |took| <= cnt && j <= n && Addressed(took, start.nodes)
      requires took == Taking(ds, cnt, start) && kernel.deliveries == Tail(ds)
      modifies `pollFds, `pollFdsSize, `polling, `registered, `drifted
      modifies kernel`polled, kernel`queue, kernel`repollActive, kernel`deliveries, ev
      ensures Valid() && Idle() && SameSettings(m.nodes, registered)
      ensures forall k :: j <= k < ev.Length ==> ev[k] == old(ev[k])
      ensures RoundMade(m, start, ds, cnt, ev, n, j, who, p)
      ensures old(kernel.polled) <= kernel.polled && (n != cnt || j == 0 ==> drifted == old(drifted))
    {
      ghost var mid := MarkNow();
      CompleteAndHandOut(ev, j, n == cnt, who);
      p := Pass(start, took, mid.nodes, Completion(Tail(ds), AskedOf(mid.nodes, who, n == cnt)));
      ServedMade(m, mid, start, ds, cnt, ev, n, j, who, p);
    }

    /** What the event loop has made of a batch, from `m` to `mid`. */
    ghost predicate Gathered(m: Mark, mid: Mark, took: seq<KEvent>, who: seq<int>) {
      && m.calls <= mid.calls && m.polled <= mid.polled && Waiters(mid.nodes, who) && Sensible(mid.nodes)
      && Told(took, m.nodes, mid.nodes, m.polled, mid.polled, kernel.Clean(m.calls, mid.calls))
      && (kernel.Clean(m.calls, mid.calls) ==> ExactKept(m.nodes, m.queue, mid.nodes, mid.queue))
    }

    lemma ServedMade(m: Mark, mid: Mark, start: Start, ds: seq<seq<KEvent>>, cnt: int, ev: array<EpollEvent>, n: int, j: nat,
                     who: seq<int>, p: Pass)
      requires p == Pass(start, p.took, mid.nodes, Completion(Tail(ds), AskedOf(mid.nodes, who, n == cnt))) && start.nodes == m.nodes
      requires p.took == Taking(ds, cnt, start) && n == |p.took| <= cnt && j <= n && Addressed(p.took, start.nodes)
      requires Gathered(m, mid, p.took, who) && mid.calls <= kernel.calls && mid.polled <= kernel.polled
      requires Returned(mid.nodes, mid.queue, ev, j, who, n == cnt, p.extra) && (j == 0 ==> kernel.deliveries == Tail(ds))
      ensures SameSettings(m.nodes, registered) && RoundMade(m, start, ds, cnt, ev, n, j, who, p)
    {
      ServedMeans(m, mid, start, ds, cnt, ev, n, j, who, p);
      ServedTold(m, mid, p);
      if n != cnt || j == 0 {
        SinceStep(m, mid);
      }
    }

    /** A call of kevent that succeeds, and the event loop. */
    method Gather(ev: array<EpollEvent>, cnt: int)
      returns (n: int, j: nat, ghost who: seq<int>, ghost took: seq<KEvent>)
      requires Valid() && Idle() && 1 <= cnt && (cnt <= ev.Length || |registered| <= ev.Length)
      modifies `pollFds, `pollFdsSize, `polling, `registered, `drifted
      modifies kernel`calls, kernel`polled, kernel`queue, kernel`repoll, kernel`repollActive, kernel`deliveries, ev
      ensures Valid() && Reports() && Noted(ev, j, who) && Gathered(old(MarkNow()), MarkNow(), took, who)
      ensures n == |took| <= cnt && j <= n && drifted <= old(drifted) && Addressed(took, old(registered))
      ensures forall k :: j <= k < ev.Length ==> ev[k] == old(ev[k])
      ensures took == Taking(old(kernel.deliveries), cnt, old(Now()))
      ensures kernel.deliveries == Tail(old(kernel.deliveries))
    {
      ghost var m := MarkNow();
      var batch := Receive(cnt);
      ReceivedExact(m);
      n, took := |batch|, batch;
      ghost var received := MarkNow();
      j, who := HandleBatch(batch, ev);
      SinceStep(m, received);
      assert took[..|took|] == took;
    }

    lemma ServedMeans(m: Mark, mid: Mark, start: Start, ds: seq<seq<KEvent>>, cnt: int, ev: array<EpollEvent>, n: int, j: nat,
                      who: seq<int>, p: Pass)
      requires p.start == start && start.nodes == m.nodes && p.told == mid.nodes && n == |p.took| <= cnt && j <= n
      requires p.took == Taking(ds, cnt, start) && Waiters(mid.nodes, who) && SameFiles(m.nodes, mid.nodes) && Addressed(p.took, start.nodes)
      requires Sensible(mid.nodes)
      requires p.extra == Completion(Tail(ds), AskedOf(mid.nodes, who, n == cnt))
      requires Returned(mid.nodes, mid.queue, ev, j, who, n == cnt, p.extra) && (j == 0 ==> kernel.deliveries == Tail(ds))
      ensures SameSettings(m.nodes, registered) && RoundEnded(start, ds, cnt, ev, n, j, who, p)
    {
      SettingsAfter(m.nodes, mid.nodes, registered);
      ServedHandled(mid, ds, ev, j, who, n == cnt, p);
    }

    lemma ServedHandled(mid: Mark, ds: seq<seq<KEvent>>, ev: array<EpollEvent>, j: nat, who: seq<int>, full: bool, p: Pass)
      requires p.told == mid.nodes && Waiters(mid.nodes, who) && p.extra == Completion(Tail(ds), AskedOf(mid.nodes, who, full))
      requires Returned(mid.nodes, mid.queue, ev, j, who, full, p.extra)
      ensures Handled(p, Tail(ds), ev[..], j, who, full) && Entries(registered, ev[..], j, who)
      ensures Finished(p.told, registered, who, p.extra)
    {
    }

    lemma ServedTold(m: Mark, mid: Mark, p: Pass)
      requires p.start.nodes == m.nodes && p.told == mid.nodes
      requires Told(p.took, m.nodes, mid.nodes, m.polled, mid.polled, kernel.Clean(m.calls, mid.calls))
      requires m.calls <= mid.calls <= kernel.calls && m.polled <= mid.polled <= kernel.polled
      ensures Told(p.took, p.start.nodes, p.told, m.polled, kernel.polled, kernel.Clean(m.calls, kernel.calls))
    {
      ToldWider(p.took, m.nodes, mid.nodes, m.polled, m.polled, mid.polled, kernel.polled,
                kernel.Clean(m.calls, mid.calls), kernel.Clean(m.calls, kernel.calls));
    }

    /** Delivering resets user events only. */
    lemma ReceivedExact(m: Mark)
      requires registered == m.nodes && forall fd :: kernel.At(fd).read == AtIn(m.queue, fd).read && kernel.At(fd).write == AtIn(m.queue, fd).write
      ensures ExactKept(m.nodes, m.queue, registered, kernel.queue)
    {
      forall fd | fd in registered && Exact(registered[fd], AtIn(m.queue, fd)) ensures Exact(registered[fd], AtIn(kernel.queue, fd)) {
        assert kernel.At(fd).read == AtIn(m.queue, fd).read;
      }
    }

    /** After the completion pass over nodes that were `was`, with the events `extra`. */
    ghost predicate Completed(was: map<int, Node>, ev: array<EpollEvent>, j: nat, who: seq<int>, full: bool, extra: seq<KEvent>)
      reads this, kernel, ev
    {
      && Valid() && Reports() && Noted(ev, j, who) && Extended(was, registered, extra)
      && (!full ==> forall fd :: fd in was && !was[fd].edge ==> registered[fd] == was[fd]) && (j == 0 ==> extra == [])
    }

    /** The reports of nodes that were `was` are in the buffer. */
    ghost predicate Returned(was: map<int, Node>, queue: map<int, Watched>, ev: array<EpollEvent>, j: nat, who: seq<int>,
                             full: bool, extra: seq<KEvent>)
      reads this, kernel, ev
    {
      && Valid() && Idle() && SameSettings(was, registered) && Entries(registered, ev[..], j, who)
      && (forall k :: 0 <= k < j ==>
            && who[k] in was && ev[k].events == FedNode(was[who[k]], EventsOf(extra, who[k])).revents
            && ev[k].data == User(was[who[k]].data))
      && (!full || j == 0 ==> ExactKept(was, queue, registered, kernel.queue))
      && Finished(was, registered, who, extra) && (j == 0 ==> registered == was)
    }

    method CompleteAndHandOut(ev: array<EpollEvent>, j: nat, full: bool, ghost who: seq<int>)
      requires Valid() && Reports() && Noted(ev, j, who)
      modifies `pollFds, `pollFdsSize, `polling, `registered, `drifted
      modifies kernel`polled, kernel`queue, kernel`repollActive, kernel`deliveries, ev
      ensures Returned(old(registered), old(kernel.queue), ev, j, who, full,
                       Completion(old(kernel.deliveries), AskedOf(old(registered), who, full)))
      ensures forall k :: j <= k < ev.Length ==> ev[k] == old(ev[k])
      ensures |kernel.deliveries| <= |old(kernel.deliveries)| && (!full || j == 0 ==> drifted == old(drifted))
      ensures j == 0 ==> kernel.deliveries == old(kernel.deliveries)
      ensures old(kernel.polled) <= kernel.polled
    {
      ghost var was, extra := registered, Completion(kernel.deliveries, AskedOf(registered, who, full));
      CompleteReports(ev, j, full, who);
      HandOutCompleted(ev, j, full, who, was, extra);
    }

    method HandOutCompleted(ev: array<EpollEvent>, j: nat, ghost full: bool, ghost who: seq<int>, ghost was: map<int, Node>,
                            ghost extra: seq<KEvent>)
      requires Completed(was, ev, j, who, full, extra)
      modifies `pollFds, `pollFdsSize, `polling, `registered, kernel`repollActive, kernel`queue, ev
      ensures Returned(was, old(kernel.queue), ev, j, who, full, extra)
      ensures forall k :: j <= k < ev.Length ==> ev[k] == old(ev[k])
    {
      ghost var nodes, queue := registered, kernel.queue;
      HandOut(ev, j, who);
      HandedOut(was, nodes, queue, ev[..], j, who, full, extra);
    }

    /** What completing and handing out comes to, for nodes that were `was` before and `mid` in
        between. */
    lemma HandedOut(was: map<int, Node>, mid: map<int, Node>, queue: map<int, Watched>, ev: seq<EpollEvent>, j: nat, who: seq<int>,
                    full: bool, extra: seq<KEvent>)
      requires Extended(was, mid, extra) && Waiters(mid, who) && Handed(mid, registered, who, j) && |who| == j <= |ev|
      requires forall fd :: fd in mid ==> mid[fd].Reporting()
      requires forall k :: 0 <= k < |who| ==> ev[k] == ReportOf(mid, who[k])
      requires (!full ==> forall fd :: fd in was && !was[fd].edge ==> mid[fd] == was[fd]) && (j == 0 ==> extra == [])
      requires ExactKept(mid, queue, registered, kernel.queue)
      ensures SameSettings(was, registered) && Entries(registered, ev, j, who)
      ensures forall k :: 0 <= k < j ==>
                && who[k] in was && ev[k].events == FedNode(was[who[k]], EventsOf(extra, who[k])).revents
                && ev[k].data == User(was[who[k]].data)
      ensures !full || j == 0 ==> ExactKept(was, queue, registered, kernel.queue)
      ensures Finished(was, registered, who, extra) && (j == 0 ==> registered == was)
    {
      FinishedMeans(was, mid, registered, who, extra);
      HandedMeans(was, mid, registered, ev, who);
      if j == 0 {
        assert forall fd :: fd in was ==> mid[fd] == was[fd];
        assert mid == was;
        HandedNobody(mid, registered, who);
      }
      if !full || j == 0 {
        Unmoved(was, mid, queue);
        ExactKeptOn(was, queue, mid, queue, registered, kernel.queue);
      }
    }

    method CompleteReports(ev: array<EpollEvent>, j: nat, full: bool, ghost who: seq<int>)
      requires Valid() && Reports() && Noted(ev, j, who)
      modifies `registered, `drifted, kernel`polled, kernel`deliveries
      ensures Completed(old(registered), ev, j, who, full, Completion(old(kernel.deliveries), AskedOf(old(registered), who, full)))
      ensures |kernel.deliveries| <= |old(kernel.deliveries)| && (!full || j == 0 ==> drifted == old(drifted))
      ensures j == 0 ==> kernel.deliveries == old(kernel.deliveries)
      ensures old(kernel.polled) <= kernel.polled
    {
      ghost var was, ds := registered, kernel.deliveries;
      var asked := RegisterCompletions(ev, j, full, who);
      Complete(asked, who, !full);
      CompletionAsked(ds, asked);
      NothingAsked(ds);
      if !full {
        Spared(was, registered, kernel.queue, Completion(ds, asked), asked);
      }
    }

    /** The rounds of a wait: another one as long as events came that were nobody's. */
    method Rounds(ev: array<EpollEvent>, cnt: int)
      returns (ec: Errno, j: nat, ghost full: bool, ghost who: seq<int>, ghost h: seq<Pass>)
      requires Valid() && Idle() && 1 <= cnt && (cnt <= ev.Length || |registered| <= ev.Length)
      modifies `pollFds, `pollFdsSize, `polling, `registered, `drifted
      modifies kernel`calls, kernel`polled, kernel`queue, kernel`repoll, kernel`repollActive, kernel`deliveries, ev
      ensures Valid() && Idle() && SameSettings(old(registered), registered)
      ensures forall k :: 0 <= k < ev.Length && (ec == OK ==> j <= k) ==> ev[k] == old(ev[k])
      ensures ec == OK ==> Served(h, old(kernel.deliveries), cnt, old(Now()), old(MarkNow()), ev, j, who, full)
      ensures ec == OK && !full ==> drifted <= old(drifted)
      ensures old(kernel.calls) < kernel.calls && old(kernel.polled) <= kernel.polled
      ensures ec != OK ==> kernel.LastFailed(ec, old(kernel.calls))
    {
      h := [];
      full := false;
      var n: int;
      ghost var ds, first, m := kernel.deliveries, Now(), MarkNow();
      RoundsBegin(ds, cnt);
      while true
        invariant InRounds(h, ds, cnt, first, m) && drifted <= old(drifted)
        invariant forall k :: 0 <= k < ev.Length ==> ev[k] == old(ev[k])
        decreases |kernel.deliveries|
      {
        ec, n, j, full, who, h := NextRound(ev, cnt, h, ds, first, m);
        if ec != OK || n == 0 || j != 0 {
          return;
        }
      }
    }

    lemma RoundsBegin(ds: seq<seq<KEvent>>, cnt: int)
      requires Valid() && Idle() && ds == kernel.deliveries
      ensures InRounds([], ds, cnt, Now(), MarkNow())
    {
    }

    /** Before a round of a wait that began at `first` and `m`. */
    ghost predicate InRounds(h: seq<Pass>, ds: seq<seq<KEvent>>, cnt: int, first: Start, m: Mark)
      reads this, kernel
    {
      && Valid() && Idle() && SameSettings(m.nodes, registered) && Since(m)
      && Begun(h, ds, cnt, Now()) && kernel.deliveries == Left(ds, |h|)
      && (if h == [] then Now() else h[0].start) == first && StartsExact(h, m) && AllTold(h, m)
    }

    /** After the last round of such a wait. */
    ghost predicate Served(h: seq<Pass>, ds: seq<seq<KEvent>>, cnt: int, first: Start, m: Mark,
                           ev: array<EpollEvent>, j: nat, who: seq<int>, full: bool)
      reads this, kernel, ev
    {
      && Entries(registered, ev[..], j, who) && History(h, ds, cnt, ev[..], j, who, full)
      && h[0].start == first && StartsExact(h, m) && AllTold(h, m) && (!full ==> Since(m))
      && (full <==> |h[|h| - 1].took| == cnt)
      && Finished(h[|h| - 1].told, registered, who, h[|h| - 1].extra)
    }

    method NextRound(ev: array<EpollEvent>, cnt: int, ghost h: seq<Pass>, ghost ds: seq<seq<KEvent>>, ghost first: Start, ghost m: Mark)
      returns (ec: Errno, n: int, j: nat, ghost full: bool, ghost who: seq<int>, ghost h': seq<Pass>)
      requires InRounds(h, ds, cnt, first, m) && 1 <= cnt && (cnt <= ev.Length || |m.nodes| <= ev.Length)
      modifies `pollFds, `pollFdsSize, `polling, `registered, `drifted
      modifies kernel`calls, kernel`polled, kernel`queue, kernel`repoll, kernel`repollActive, kernel`deliveries, ev
      ensures Valid() && Idle() && SameSettings(m.nodes, registered)
      ensures forall k :: 0 <= k < ev.Length && (ec == OK ==> j <= k) ==> ev[k] == old(ev[k])
      ensures ec == OK && n > 0 && j == 0 ==> InRounds(h', ds, cnt, first, m) && |kernel.deliveries| < |old(kernel.deliveries)|
      ensures ec == OK && (n == 0 || j != 0) ==> Served(h', ds, cnt, first, m, ev, j, who, full)
      ensures ec == OK ==> n >= 0 && (!full || j == 0 ==> drifted <= old(drifted))
      ensures old(kernel.calls) < kernel.calls && old(kernel.polled) <= kernel.polled
      ensures ec != OK ==> kernel.LastFailed(ec, old(kernel.calls))
    {
      ghost var start, mid := Now(), MarkNow();
      SameCount(m.nodes, registered);
      ghost var p;
      ec, n, j, who, p := Round(ev, cnt);
      SettingsOn(m.nodes, mid.nodes, registered);
      full := n == cnt;
      h' := h + [p];
      if ec == OK {
        StartsGrow(h, m, mid, p);
        ToldGrow(h, m, mid, p);
        if n != cnt || j == 0 {
          SinceStep(m, mid);
        }
        if n == 0 || j != 0 {
          RoundServes(h, ds, cnt, first, m, start, ev, n, j, who, p);
        } else {
          RoundRepeats(h, ds, cnt, first, m, start, ev, n, j, who, p);
        }
      }
    }

    /** How a wait stands after the rounds `h`, seen from `mid`. */
    ghost predicate Standing(h: seq<Pass>, m: Mark, mid: Mark) {
      && m.calls <= mid.calls && m.polled <= mid.polled
      && (kernel.Clean(m.calls, mid.calls) ==> ExactKept(m.nodes, m.queue, mid.nodes, mid.queue) && AllKept(h, m))
      && forall k :: 0 <= k < |h| ==>
           Told(h[k].took, h[k].start.nodes, h[k].told, m.polled, mid.polled, kernel.Clean(m.calls, mid.calls))
    }

    /** The last round. */
    lemma RoundServes(h: seq<Pass>, ds: seq<seq<KEvent>>, cnt: int, first: Start, m: Mark, start: Start,
                      ev: array<EpollEvent>, n: int, j: nat, who: seq<int>, p: Pass)
      requires Begun(h, ds, cnt, start) && StartsExact(h + [p], m) && AllTold(h + [p], m) && (if h == [] then start else h[0].start) == first
      requires Resting(start.nodes) && Named(start.nodes)
      requires RoundEnded(start, Left(ds, |h|), cnt, ev, n, j, who, p) && (n == 0 || j != 0)
      requires n != cnt ==> Since(m)
      ensures Served(h + [p], ds, cnt, first, m, ev, j, who, n == cnt)
    {
      HistoryEnds(h, ds, cnt, p, ev[..], j, who, n == cnt);
    }

    /** A round with nothing to report. */
    lemma RoundRepeats(h: seq<Pass>, ds: seq<seq<KEvent>>, cnt: int, first: Start, m: Mark, start: Start,
                       ev: array<EpollEvent>, n: int, j: nat, who: seq<int>, p: Pass)
      requires Begun(h, ds, cnt, start) && StartsExact(h + [p], m) && AllTold(h + [p], m) && (if h == [] then start else h[0].start) == first
      requires Resting(start.nodes) && Named(start.nodes)
      requires RoundEnded(start, Left(ds, |h|), cnt, ev, n, j, who, p) && n > 0 && j == 0
      requires Since(m)
      requires Valid() && Idle() && SameSettings(m.nodes, registered)
      ensures InRounds(h + [p], ds, cnt, first, m) && |kernel.deliveries| < |Left(ds, |h|)|
    {
      InVain(p, Tail(Left(ds, |h|)), ev[..], who, n == cnt);
      BegunGrows(h, ds, cnt, p, Now());
    }

    lemma StartsGrow(h: seq<Pass>, m: Mark, mid: Mark, p: Pass)
      requires m.calls <= mid.calls <= kernel.calls && p.start.nodes == mid.nodes && p.start.queue == mid.queue
      requires kernel.Clean(m.calls, mid.calls) ==> ExactKept(m.nodes, m.queue, mid.nodes, mid.queue)
      requires kernel.Clean(m.calls, mid.calls) ==> AllKept(h, m)
      ensures StartsExact(h + [p], m) && (h + [p])[0] == if h == [] then p else h[0]
    {
    }

    lemma ToldGrow(h: seq<Pass>, m: Mark, mid: Mark, p: Pass)
      requires Standing(h, m, mid) && mid.calls <= kernel.calls && mid.polled <= kernel.polled
      requires Told(p.took, p.start.nodes, p.told, mid.polled, kernel.polled, kernel.Clean(mid.calls, kernel.calls))
      ensures AllTold(h + [p], m)
    {
      var g := h + [p];
      forall k | 0 <= k < |g|
        ensures Told(g[k].took, g[k].start.nodes, g[k].told, m.polled, kernel.polled, kernel.Clean(m.calls, kernel.calls))
      {
        if k < |h| {
          ToldWider(g[k].took, g[k].start.nodes, g[k].told, m.polled, m.polled, mid.polled, kernel.polled,
                    kernel.Clean(m.calls, mid.calls), kernel.Clean(m.calls, kernel.calls));
        } else {
          ToldWider(p.took, p.start.nodes, p.told, m.polled, mid.polled, kernel.polled, kernel.polled,
                    kernel.Clean(mid.calls, kernel.calls), kernel.Clean(m.calls, kernel.calls));
        }
      }
    }

    /** In every round the nodes are told what its events say. */
    ghost predicate AllTold(h: seq<Pass>, m: Mark)
      reads kernel`calls, kernel`polled
    {
      forall k :: 0 <= k < |h| ==>
        Told(h[k].took, h[k].start.nodes, h[k].told, m.polled, kernel.polled, kernel.Clean(m.calls, kernel.calls))
    }

    lemma BegunGrows(h: seq<Pass>, ds: seq<seq<KEvent>>, cnt: int, p: Pass, now: Start)
      requires Begun(h, ds, cnt, p.start) && p.took == Taking(Left(ds, |h|), cnt, p.start) && p.took != []
      requires Resting(p.start.nodes) && Named(p.start.nodes) && SameFiles(p.start.nodes, p.told)
      requires Addressed(p.took, p.start.nodes) && Sensible(p.told)
      requires now.nodes == p.told && Vain(p)
      ensures Begun(h + [p], ds, cnt, now) && Tail(Left(ds, |h|)) == Left(ds, |h| + 1)
    {
      var g := h + [p];
      PassesGrow(h, ds, cnt, p);
      forall k | 0 <= k < |g| ensures Vain(g[k]) && NodesAfter(g, k, now) == g[k].told {
        assert k < |h| ==> g[k] == h[k] && NodesAfter(g, k, now) == NodesAfter(h, k, p.start);
      }
    }

    lemma HistoryEnds(h: seq<Pass>, ds: seq<seq<KEvent>>, cnt: int, p: Pass, ev: seq<EpollEvent>, j: nat, who: seq<int>, full: bool)
      requires Begun(h, ds, cnt, p.start) && p.took == Taking(Left(ds, |h|), cnt, p.start)
      requires Resting(p.start.nodes) && Named(p.start.nodes) && SameFiles(p.start.nodes, p.told)
      requires Addressed(p.took, p.start.nodes) && Sensible(p.told)
      requires Handled(p, Tail(Left(ds, |h|)), ev, j, who, full) && (p.took == [] || j > 0)
      ensures History(h + [p], ds, cnt, ev, j, who, full)
    {
      var g := h + [p];
      assert Tail(Left(ds, |h|)) == Left(ds, |g|) && g[|h|] == p;
      PassesGrow(h, ds, cnt, p);
      VainBefore(h, ds, cnt, p);
    }

    lemma VainBefore(h: seq<Pass>, ds: seq<seq<KEvent>>, cnt: int, p: Pass)
      requires Begun(h, ds, cnt, p.start)
      ensures var g := h + [p]; forall k :: 0 <= k < |g| - 1 ==> Vain(g[k]) && g[k + 1].start.nodes == g[k].told
    {
      var g := h + [p];
      forall k | 0 <= k < |g| - 1 ensures Vain(g[k]) && g[k + 1].start.nodes == g[k].told {
        assert g[k] == h[k] && g[k + 1].start.nodes == NodesAfter(h, k, p.start);
      }
    }

    lemma PassesGrow(h: seq<Pass>, ds: seq<seq<KEvent>>, cnt: int, p: Pass)
      requires Passes(h, ds, cnt) && p.took == Taking(Left(ds, |h|), cnt, p.start)
      requires Resting(p.start.nodes) && Named(p.start.nodes) && SameFiles(p.start.nodes, p.told)
      requires Addressed(p.took, p.start.nodes) && Sensible(p.told)
      ensures Passes(h + [p], ds, cnt)
    {
      var g := h + [p];
      assert forall k :: 0 <= k < |h| ==> g[k] == h[k];
    }

    /** The rounds so far have had their batches and nothing to report. */
    ghost predicate Begun(h: seq<Pass>, ds: seq<seq<KEvent>>, cnt: int, now: Start) {
      && |h| <= |ds| && Passes(h, ds, cnt)
      && forall k :: 0 <= k < |h| ==> Vain(h[k]) && NodesAfter(h, k, now) == h[k].told
    }

    ghost function NodesAfter(h: seq<Pass>, k: nat, now: Start): map<int, Node> {
      if k + 1 < |h| then h[k + 1].start.nodes else now.nodes
    }

    /** Unless a call has failed, filters that agreed with their files at first do so at the
        start of every round. */
    ghost predicate StartsExact(h: seq<Pass>, m: Mark)
      reads kernel`calls
    {
      kernel.Clean(m.calls, kernel.calls) ==> AllKept(h, m)
    }

    ghost predicate AllKept(h: seq<Pass>, m: Mark) {
      forall k :: 0 <= k < |h| ==> ExactKept(m.nodes, m.queue, h[k].start.nodes, h[k].start.queue)
    }

    /** The first part of `epollfd_ctx_wait`: polls on the kqueue and the listed files. */
    method Look(memory: bool) returns (ec: Errno, n: int)
      requires Valid() && Idle()
      modifies `pollFds, `pollFdsSize, `polling, `registered, `registeredSize, `pfds, pfds
      modifies kernel`calls, kernel`polled, kernel`repollActive, kernel`queue
      ensures Valid() && Idle() && (pfds == old(pfds) || fresh(pfds))
      ensures ec == OK ==> Looked(old(pollFds), old(MarkNow()), n)
      ensures SubSettings(old(registered), registered, old(pollFds)) && Since(old(MarkNow()))
      ensures ec != OK ==> (ec == ENOMEM && !memory) || kernel.LastFailed(ec, old(kernel.calls))
    {
      n := 0;
      ec := MakePfdsSpace(memory);
      if ec == OK {
        ec, n := Survey();
      }
    }

    method Survey() returns (ec: Errno, n: int)
      requires Valid() && Idle() && pfds.Length >= 1 + |pollFds|
      modifies `pollFds, `pollFdsSize, `polling, `registered, `registeredSize, pfds
      modifies kernel`calls, kernel`polled, kernel`repollActive, kernel`queue
      ensures Valid() && Idle()
      ensures ec == OK ==> Looked(old(pollFds), old(MarkNow()), n)
      ensures ec != OK ==> registered == old(registered)
      ensures Since(old(MarkNow()))
      ensures kernel.LastFailed(ec, old(kernel.calls)) && kernel.calls == old(kernel.calls) + 1
    {
      ghost var m, list := MarkNow(), pollFds;
      ec, n := AskPoll();
      if ec == OK && n > 0 {
        Sweep();
        SweptSettings(m.nodes, registered, registered, list, pfds[..]);
        LookedExact(m);
      }
    }

    method AskPoll() returns (ec: Errno, n: int)
      requires Valid() && pfds.Length >= 1 + |pollFds|
      modifies pfds, kernel`calls, kernel`polled
      ensures ec == OK ==> Polled(pollFds, old(MarkNow())) && n >= 0 && (n == 0 <==> Silent(pfds[..], 1 + |pollFds|))
      ensures kernel.LastFailed(ec, old(kernel.calls)) && kernel.calls == old(kernel.calls) + 1 && kernel.polled >= old(kernel.polled)
    {
      FillPollFds(pfds);
      assert Asking(pfds[..], kq, pollFds, registered);
      ec, n := PollAll(1 + pollFdsSize);
    }

    /** What poll has been asked about the kqueue and the listed files, and what has been made of
        its answers: nothing if there were none, or else every invalid file is gone, and every
        ready one has an active user event; no filter is concerned. */
    ghost predicate Looked(list: seq<int>, m: Mark, n: int)
      reads `registered, `pfds, pfds, kernel
    {
      && m.calls <= kernel.calls && m.polled <= kernel.polled
      && Polled(list, m) && SubSettings(m.nodes, registered, list)
      && n >= 0 && (n == 0 <==> Silent(pfds[..], 1 + |list|))
      && (n == 0 ==> registered == m.nodes && kernel.queue == m.queue)
      && (n > 0 ==> Swept(m.nodes, registered, list, pfds[..], |list|) && Active(list, pfds[..], |list|, kernel.queue))
      && ExactKept(m.nodes, m.queue, registered, kernel.queue)
    }

    /** `epollfd_ctx_wait`, for a buffer of the caller's `cnt` entries. */
    method Wait(ev: array<EpollEvent>, memory: bool, kevsMemory: bool)
      returns (ec: Errno, actual: nat, ghost full: bool, ghost who: seq<int>, ghost h: seq<Pass>)
      requires Valid() && Idle() && 1 <= ev.Length <= INT_MAX
      modifies this, pfds, ev
      modifies kernel`calls, kernel`polled, kernel`queue, kernel`repoll, kernel`repollActive, kernel`deliveries
      ensures Valid() && Idle() && (pfds == old(pfds) || fresh(pfds))
      ensures SubSettings(old(registered), registered, old(pollFds))
      ensures forall k :: 0 <= k < ev.Length && (ec == OK ==> actual <= k) ==> ev[k] == old(ev[k])
      ensures ec == OK ==> Waited(h, old(kernel.deliveries), old(pollFds), old(MarkNow()), ev, actual, who, full)
      ensures ec == OK && !full ==> drifted <= old(drifted)
      ensures old(kernel.calls) <= kernel.calls
      ensures ec != OK ==>
                || (ec == ENOMEM && (!memory || !kevsMemory || (ev.Length + 1) * 3 > INT_MAX))
                || kernel.LastFailed(ec, old(kernel.calls))
    {
      actual, full, who, h := 0, false, [], [];
      var n: int;
      ghost var list, m := pollFds, MarkNow();
      ec, n := Look(memory);
      assert kernel.deliveries == old(kernel.deliveries) && drifted == old(drifted) && ev[..] == old(ev[..]);
      if ec == OK {
        ec, actual, full, who, h := Fetch(ev, kevsMemory, list, m, n);
      }
    }

    /** A buffer with room for every registered file is never filled by kevents. */
    lemma NeverFull(h: seq<Pass>, ds: seq<seq<KEvent>>, list: seq<int>, m: Mark, ev: array<EpollEvent>, j: nat, who: seq<int>,
                    full: bool)
      requires RoundsServed(h, ds, list, m, ev, j, who, full)
      ensures |m.nodes| <= ev.Length ==> !full
    {
      var first := h[0].start.nodes;
      RoundBound(h, ds, Enlarged(ev.Length, |first|), |h| - 1);
      KeysCount(first.Keys, m.nodes.Keys);
      assert |first| == |first.Keys| && |m.nodes| == |m.nodes.Keys|;
    }

    lemma NothingFound(ds: seq<seq<KEvent>>, list: seq<int>, m: Mark, ev: array<EpollEvent>)
      requires Looked(list, m, 0) && Since(m)
      ensures Waited([], ds, list, m, ev, 0, [], false)
    {
    }

    /** poll has been asked about the kqueue and every listed file, with what is wanted of it. */
    ghost predicate Polled(list: seq<int>, m: Mark)
      reads `pfds, pfds
    {
      Asking(pfds[..], kq, list, m.nodes) && Surveyed(pfds[..], 1 + |list|, m.polled)
    }

    /** A wait that began at `m` with the list `list` has polled, and has reported nothing, as poll
        found nothing, or has served its rounds. */
    ghost predicate Waited(h: seq<Pass>, ds: seq<seq<KEvent>>, list: seq<int>, m: Mark,
                           ev: array<EpollEvent>, j: nat, who: seq<int>, full: bool)
      reads this, pfds, kernel, ev
    {
      && Polled(list, m) && (!full ==> Since(m)) && (|m.nodes| <= ev.Length ==> !full)
      && if Silent(pfds[..], 1 + |list|) then j == 0 && h == [] && registered == m.nodes
         else RoundsServed(h, ds, list, m, ev, j, who, full)
    }

    ghost predicate RoundsServed(h: seq<Pass>, ds: seq<seq<KEvent>>, list: seq<int>, m: Mark,
                                 ev: array<EpollEvent>, j: nat, who: seq<int>, full: bool)
      reads this, pfds, kernel, ev
    {
      && Entries(registered, ev[..], j, who)
      && h != [] && History(h, ds, Enlarged(ev.Length, |h[0].start.nodes|), ev[..], j, who, full)
      && Swept(m.nodes, h[0].start.nodes, list, pfds[..], |list|)
      && Active(list, pfds[..], |list|, h[0].start.queue)
      && StartsExact(h, m) && AllTold(h, m)
      && Finished(h[|h| - 1].told, registered, who, h[|h| - 1].extra)
      && (full <==> |h[|h| - 1].took| == Enlarged(ev.Length, |h[0].start.nodes|))
    }

    /** The second part of `epollfd_ctx_wait`, which is over when poll has found nothing. */
    method Fetch(ev: array<EpollEvent>, kevsMemory: bool, ghost list: seq<int>, ghost m: Mark, found: int)
      returns (ec: Errno, actual: nat, ghost full: bool, ghost who: seq<int>, ghost h: seq<Pass>)
      requires Valid() && Idle() && 1 <= ev.Length <= INT_MAX && Looked(list, m, found) && Since(m)
      modifies `pollFds, `pollFdsSize, `polling, `registered, `drifted, `kevsLength
      modifies kernel`calls, kernel`polled, kernel`queue, kernel`repoll, kernel`repollActive, kernel`deliveries, ev
      ensures Valid() && Idle() && SubSettings(m.nodes, registered, list)
      ensures forall k :: 0 <= k < ev.Length && (ec == OK ==> actual <= k) ==> ev[k] == old(ev[k])
      ensures ec == OK ==> Waited(h, old(kernel.deliveries), list, m, ev, actual, who, full)
      ensures ec == OK && !full ==> drifted <= old(drifted)
      ensures old(kernel.calls) <= kernel.calls
      ensures ec != OK ==>
                || (ec == ENOMEM && (!kevsMemory || (ev.Length + 1) * 3 > INT_MAX))
                || kernel.LastFailed(ec, m.calls)
    {
      if found == 0 {
        NothingFound(kernel.deliveries, list, m, ev);
        return OK, 0, false, [], [];
      }
      ec, actual, full, who, h := FetchSome(ev, kevsMemory, list, m, found);
    }

    method FetchSome(ev: array<EpollEvent>, kevsMemory: bool, ghost list: seq<int>, ghost m: Mark, ghost found: int)
      returns (ec: Errno, actual: nat, ghost full: bool, ghost who: seq<int>, ghost h: seq<Pass>)
      requires Valid() && Idle() && 1 <= ev.Length <= INT_MAX && Looked(list, m, found) && found > 0
      modifies `pollFds, `pollFdsSize, `polling, `registered, `drifted, `kevsLength
      modifies kernel`calls, kernel`polled, kernel`queue, kernel`repoll, kernel`repollActive, kernel`deliveries, ev
      ensures Valid() && Idle() && SubSettings(m.nodes, registered, list)
      ensures forall k :: 0 <= k < ev.Length && (ec == OK ==> actual <= k) ==> ev[k] == old(ev[k])
      ensures ec == OK ==> Waited(h, old(kernel.deliveries), list, m, ev, actual, who, full)
      ensures ec == OK && !full ==> drifted <= old(drifted)
      ensures old(kernel.calls) <= kernel.calls
      ensures ec != OK ==>
                || (ec == ENOMEM && (!kevsMemory || (ev.Length + 1) * 3 > INT_MAX))
                || kernel.LastFailed(ec, m.calls)
    {
      actual, full, who, h := 0, false, [], [];
      ghost var mid := registered;
      var cnt := Enlarged(ev.Length, registeredSize);
      ec := MakeKevsSpace(cnt, kevsMemory);
      if ec == OK {
        ec, actual, full, who, h := FetchRounds(ev, cnt, list, m, found);
      }
      SweptSettings(m.nodes, mid, registered, list, pfds[..]);
    }

    method FetchRounds(ev: array<EpollEvent>, cnt: int, ghost list: seq<int>, ghost m: Mark, ghost found: int)
      returns (ec: Errno, actual: nat, ghost full: bool, ghost who: seq<int>, ghost h: seq<Pass>)
      requires Valid() && Idle() && 1 <= ev.Length && cnt == Enlarged(ev.Length, |registered|)
      requires Looked(list, m, found) && found > 0
      modifies `pollFds, `pollFdsSize, `polling, `registered, `drifted
      modifies kernel`calls, kernel`polled, kernel`queue, kernel`repoll, kernel`repollActive, kernel`deliveries, ev
      ensures Valid() && Idle() && SameSettings(old(registered), registered)
      ensures forall k :: 0 <= k < ev.Length && (ec == OK ==> actual <= k) ==> ev[k] == old(ev[k])
      ensures ec == OK ==> Waited(h, old(kernel.deliveries), list, m, ev, actual, who, full)
      ensures ec == OK && !full ==> drifted <= old(drifted)
      ensures old(kernel.calls) <= kernel.calls
      ensures ec != OK ==> kernel.LastFailed(ec, m.calls)
    {
      ghost var first, mid, ds := Now(), MarkNow(), kernel.deliveries;
      ec, actual, full, who, h := Rounds(ev, cnt);
      if ec == OK {
        ServedWaits(h, ds, cnt, first, m, mid, ev, actual, who, full, list);
        NeverFull(h, ds, list, m, ev, actual, who, full);
      }
    }

    /** The check for overflow and `epollfd_ctx_make_kevs_space`. */
    method MakeKevsSpace(cnt: int, memory: bool) returns (ec: Errno)
      requires Valid()
      modifies `kevsLength
      ensures Valid() && ec == if cnt > INT_MAX || (cnt > old(kevsLength) && !memory) then ENOMEM else OK
      ensures kevsLength == if ec == OK && cnt > old(kevsLength) then cnt else old(kevsLength)
    {
      if cnt > INT_MAX || (cnt > kevsLength && !memory) {
        return ENOMEM;
      }
      if cnt > kevsLength {
        kevsLength := cnt;
      }
      ec := OK;
    }

    lemma ServedWaits(h: seq<Pass>, ds: seq<seq<KEvent>>, cnt: int, first: Start, m: Mark, mid: Mark,
                      ev: array<EpollEvent>, j: nat, who: seq<int>, full: bool, list: seq<int>)
      requires Served(h, ds, cnt, first, mid, ev, j, who, full) && cnt == Enlarged(ev.Length, |first.nodes|)
      requires m.calls <= mid.calls <= kernel.calls && m.polled <= mid.polled <= kernel.polled
      requires ExactKept(m.nodes, m.queue, mid.nodes, mid.queue)
      requires Swept(m.nodes, first.nodes, list, pfds[..], |list|) && Active(list, pfds[..], |list|, first.queue)
      ensures RoundsServed(h, ds, list, m, ev, j, who, full) && (!full ==> Since(m))
    {
      StartsStep(h, m, mid);
      forall k | 0 <= k < |h|
        ensures Told(h[k].took, h[k].start.nodes, h[k].told, m.polled, kernel.polled, kernel.Clean(m.calls, kernel.calls))
      {
        ToldWider(h[k].took, h[k].start.nodes, h[k].told, m.polled, mid.polled, kernel.polled, kernel.polled,
                  kernel.Clean(mid.calls, kernel.calls), kernel.Clean(m.calls, kernel.calls));
      }
      if !full {
        SinceStep(m, mid);
      }
    }

    /** Looking at files that only poll can watch concerns no filter. */
    lemma LookedExact(m: Mark)
      requires Valid() && m.calls <= kernel.calls && m.polled <= kernel.polled
      requires forall fd :: fd in registered ==> fd in m.nodes && registered[fd] == m.nodes[fd]
      requires forall fd :: fd in m.nodes && m.nodes[fd].Filtered() ==> fd in registered && kernel.At(fd) == AtIn(m.queue, fd)
      ensures ExactKept(m.nodes, m.queue, registered, kernel.queue) && Since(m)
    {
    }

    lemma StartsStep(h: seq<Pass>, m: Mark, mid: Mark)
      requires m.calls <= mid.calls <= kernel.calls && StartsExact(h, mid)
      requires ExactKept(m.nodes, m.queue, mid.nodes, mid.queue)
      ensures StartsExact(h, m)
    {
      if kernel.Clean(m.calls, kernel.calls) {
        forall k | 0 <= k < |h| ensures ExactKept(m.nodes, m.queue, h[k].start.nodes, h[k].start.queue) {
          ExactKeptOn(m.nodes, m.queue, mid.nodes, mid.queue, h[k].start.nodes, h[k].start.queue);
        }
      }
    }

    // -- what a wait reports --

    /** A wait, for a level-triggered socket or ordinary file whose filters agree with it and whose
        closed ends are known: as long as no call fails, the buffer has room and the kqueue
        delivers by the filters that it has, what epoll owes for the file at the last round is
        reported, and nothing else but EPOLLERR; and the file is in order for the next wait. */
    method WaitFor(ev: array<EpollEvent>, memory: bool, kevsMemory: bool, ghost fd: int, ghost cs: nat -> Condition)
      returns (ec: Errno, actual: nat, ghost full: bool, ghost who: seq<int>, ghost h: seq<Pass>)
      requires Valid() && Idle() && 1 <= ev.Length <= INT_MAX
      requires fd in registered && registered[fd].Leveled()
      requires Exact(registered[fd], kernel.At(fd)) || (fd !in drifted && !NoFilters(kernel.At(fd)))
      requires Steady(registered[fd].kind, registered[fd].events, registered[fd].eof, cs)
      modifies this, pfds, ev
      modifies kernel`calls, kernel`polled, kernel`queue, kernel`repoll, kernel`repollActive, kernel`deliveries
      ensures Valid() && Idle() && (pfds == old(pfds) || fresh(pfds))
      ensures ec != OK ==>
                || (ec == ENOMEM && (!memory || !kevsMemory || (ev.Length + 1) * 3 > INT_MAX))
                || kernel.LastFailed(ec, old(kernel.calls))
      ensures ec == OK && h == [] ==> actual == 0 && Unready(kernel.ReplyAt(old(kernel.polled), NO_EVENTS.(input := true)))
      ensures ec == OK && |old(registered)| <= ev.Length ==> !full
      ensures ec == OK && h != [] && !full && Undisturbed(old(kernel.calls), h, fd, cs) ==>
                && ReportedExactly(old(registered)[fd], cs(|h| - 1), EventsOf(h[|h| - 1].took, fd), fd, ev[..], actual, who)
                && fd in registered && registered[fd].eof == old(registered)[fd].eof && Settings(old(registered)[fd], registered[fd])
                && Exact(registered[fd], kernel.At(fd))
    {
      ghost var m, list, ds := MarkNow(), pollFds, kernel.deliveries;
      Unlisted(fd);
      ec, actual, full, who, h := Wait(ev, memory, kevsMemory);
      if ec == OK && h != [] && !full && Undisturbed(m.calls, h, fd, cs) {
        WaitedExactly(h, ds, list, m, ev, actual, who, fd, cs);
      }
    }

    /** No call since the `a`-th has failed, and the kqueue has delivered by the filters of the file. */
    ghost predicate Undisturbed(a: nat, h: seq<Pass>, fd: int, cs: nat -> Condition)
      reads kernel`calls
    {
      kernel.Clean(a, kernel.calls) && forall k :: 0 <= k < |h| ==> Fits(h[k], fd, cs(k))
    }

    lemma UndisturbedLater(a: nat, b: nat, h: seq<Pass>, fd: int, cs: nat -> Condition)
      requires a <= b
      ensures Undisturbed(a, h, fd, cs) ==> Undisturbed(b, h, fd, cs)
    {
    }

    /** EPOLL_CTL_ADD of a socket or of a file that filters suit, level-triggered, and then a wait:
        what the caller has asked for is reported as it is due. */
    method AddAndWait(x: int, hasDesc: bool, r: Request, stat: Stat, nodeMemory: bool, ev: array<EpollEvent>, memory: bool,
                      kevsMemory: bool, ghost cs: nat -> Condition)
      returns (added: Errno, ec: Errno, actual: nat, ghost full: bool, ghost who: seq<int>, ghost h: seq<Pass>)
      requires Valid() && Idle() && 1 <= ev.Length <= INT_MAX
      requires x !in registered && (stat.SocketFile? || (stat.OtherFile? && x !in kernel.pollOnly)) && !r.edge && !r.oneshot
      requires Steady(KindOf(stat), r.AsksOf(KindOf(stat)), OPEN, cs)
      modifies this, pfds, ev
      modifies kernel`calls, kernel`polled, kernel`queue, kernel`repoll, kernel`repollActive, kernel`deliveries
      ensures Valid() && Idle()
      ensures added != OK ==> registered == old(registered)
      ensures added == OK && ec != OK ==>
                || (ec == ENOMEM && (!memory || !kevsMemory || (ev.Length + 1) * 3 > INT_MAX))
                || kernel.LastFailed(ec, old(kernel.calls))
      ensures added == OK && ec == OK && h == [] ==> actual == 0 && Unready(kernel.ReplyAt(old(kernel.polled), NO_EVENTS.(input := true)))
      ensures added == OK && ec == OK && h != [] && !full && Undisturbed(old(kernel.calls), h, x, cs) ==>
                ReportedAsAsked(r, if stat.SocketFile? then Socket else Ordinary, cs(|h| - 1), EventsOf(h[|h| - 1].took, x), x, ev[..], actual, who)
      ensures added == OK && ec == OK && |old(registered)| < ev.Length ==> !full
    {
      ec, actual, full, who, h := OK, 0, false, [], [];
      added := AddFiltered(x, hasDesc, r, stat, nodeMemory);
      if added == OK {
        ghost var a, b := old(kernel.calls), kernel.calls;
        ghost var kind := if stat.SocketFile? then Socket else Ordinary;
        assert kernel.polled == old(kernel.polled) && registered[x].kind == kind;
        ec, actual, full, who, h := WaitForAsked(ev, memory, kevsMemory, x, r, kind, cs);
        UndisturbedLater(a, b, h, x, cs);
      }
    }

    method WaitForAsked(ev: array<EpollEvent>, memory: bool, kevsMemory: bool, ghost x: int, ghost r: Request, ghost kind: Kind,
                        ghost cs: nat -> Condition)
      returns (ec: Errno, actual: nat, ghost full: bool, ghost who: seq<int>, ghost h: seq<Pass>)
      requires Valid() && Idle() && 1 <= ev.Length <= INT_MAX
      requires x in registered && registered[x].Leveled() && Exact(registered[x], kernel.At(x)) && Follows(registered[x], r)
      requires registered[x].kind == kind && (kind.Socket? || kind.Ordinary?)
      requires Steady(registered[x].kind, registered[x].events, registered[x].eof, cs)
      modifies this, pfds, ev
      modifies kernel`calls, kernel`polled, kernel`queue, kernel`repoll, kernel`repollActive, kernel`deliveries
      ensures Valid() && Idle()
      ensures ec != OK ==>
                || (ec == ENOMEM && (!memory || !kevsMemory || (ev.Length + 1) * 3 > INT_MAX))
                || kernel.LastFailed(ec, old(kernel.calls))
      ensures ec == OK && h == [] ==> actual == 0 && Unready(kernel.ReplyAt(old(kernel.polled), NO_EVENTS.(input := true)))
      ensures ec == OK && |old(registered)| <= ev.Length ==> !full
      ensures ec == OK && h != [] && !full && Undisturbed(old(kernel.calls), h, x, cs) ==>
                ReportedAsAsked(r, kind, cs(|h| - 1), EventsOf(h[|h| - 1].took, x), x, ev[..], actual, who)
    {
      ghost var n, a := registered[x], kernel.calls;
      ec, actual, full, who, h := WaitFor(ev, memory, kevsMemory, x, cs);
      if ec == OK && h != [] && !full && Undisturbed(a, h, x, cs) {
        AskedExactly(n, r, cs(|h| - 1), EventsOf(h[|h| - 1].took, x), x, ev[..], actual, who);
      }
    }

    method AddFiltered(x: int, hasDesc: bool, r: Request, stat: Stat, memory: bool) returns (ec: Errno)
      requires Valid() && Idle()
      requires x !in registered && (stat.SocketFile? || (stat.OtherFile? && x !in kernel.pollOnly)) && !r.edge && !r.oneshot
      modifies `pollFds, `pollFdsSize, `polling, `registered, `registeredSize, `drifted
      modifies kernel`calls, kernel`queue, kernel`repoll, kernel`repollActive
      ensures Valid() && Idle()
      ensures ec != OK ==> registered == old(registered)
      ensures ec == OK ==>
                && old(kernel.calls) <= kernel.calls
                && x in registered && Follows(registered[x], r) && registered[x].kind == KindOf(stat) && registered[x].fd == x
                && registered[x].eof == OPEN && registered[x].Leveled() && Exact(registered[x], kernel.At(x))
                && |registered| == |old(registered)| + 1
    {
      ec := Ctl(Add, x, hasDesc, r, stat, memory);
      if ec == OK {
        assert registered.Keys == old(registered).Keys + {x} && |registered.Keys| == |registered| && |old(registered).Keys| == |old(registered)|;
        AddedExact(registered[x], kernel.At(x), r, stat, hasDesc, x in kernel.pollOnly);
      }
    }

    /** What the caller's EPOLLET and EPOLLONESHOT come to in the kqueue when a socket, or a file that
        filters suit, is added: the filters of what it has asked for fire on changes only, and
        otherwise as long as there is something to tell; it is watched in any case. */
    static lemma AddedModes(n: Node, w: Watched, r: Request, stat: Stat, hasDesc: bool, pollOnly: bool)
      requires Fulfils(n, r, stat, hasDesc) && Done(n, w, pollOnly) && n.Sound() && (stat.SocketFile? || (stat.OtherFile? && !pollOnly))
      ensures var mode := if r.edge || r.oneshot then Clear else Level;
              && (IN in r.bits ==> w.read == mode) && (OUT in r.bits ==> w.write == mode)
              && (mode == Clear ==> w.read != Level && w.write != Level)
              && (OUT !in r.bits ==> w.write == Off)
      ensures w.read != Off || w.write != Off
    {
      NeverEmpty(n.Interest());
      AsksMeans(r, n.kind);
    }

    static lemma AddedExact(n: Node, w: Watched, r: Request, stat: Stat, hasDesc: bool, pollOnly: bool)
      requires Fulfils(n, r, stat, hasDesc) && Done(n, w, pollOnly) && !r.edge && !r.oneshot
      requires stat.SocketFile? || (stat.OtherFile? && !pollOnly)
      ensures n.kind == KindOf(stat) && n.events == r.AsksOf(KindOf(stat)) && n.eof == OPEN && n.Leveled() && Exact(n, w)
    {
    }

    /** poll has found nothing. */
    static predicate Unready(reply: PollReply) { !reply.Invalid? && (reply.Ready? ==> reply.bits == {}) }

    /** A file with filters is not one of those that only poll can watch, and its filters agree
        with it if there are any. */
    lemma Unlisted(fd: int)
      requires Valid() && fd in registered && registered[fd].Filtered()
      ensures fd !in pollFds
      ensures registered[fd].Leveled() && fd !in drifted && !NoFilters(kernel.At(fd)) ==> Exact(registered[fd], kernel.At(fd))
    {
      assert Good(registered[fd], kernel.At(fd), fd in kernel.pollOnly, fd in drifted);
    }

    lemma WaitedExactly(h: seq<Pass>, ds: seq<seq<KEvent>>, list: seq<int>, m: Mark, ev: array<EpollEvent>, j: nat, who: seq<int>,
                        fd: int, cs: nat -> Condition)
      requires RoundsServed(h, ds, list, m, ev, j, who, false) && kernel.Clean(m.calls, kernel.calls) && Since(m)
      requires fd in m.nodes && m.nodes[fd].Leveled() && m.nodes[fd].revents == {} && fd !in list
      requires Exact(m.nodes[fd], AtIn(m.queue, fd))
      requires Steady(m.nodes[fd].kind, m.nodes[fd].events, m.nodes[fd].eof, cs)
      requires forall k :: 0 <= k < |h| ==> Fits(h[k], fd, cs(k))
      ensures ReportedExactly(m.nodes[fd], cs(|h| - 1), EventsOf(h[|h| - 1].took, fd), fd, ev[..], j, who)
      ensures fd in registered && registered[fd].eof == m.nodes[fd].eof && Exact(registered[fd], kernel.At(fd))
    {
      WaitExact(m.nodes, m.queue, h, ds, Enlarged(ev.Length, |h[0].start.nodes|), ev[..], j, who, fd, cs);
    }

    // -- files that are polled --

    /** A wait, for a file that only poll can watch: poll is asked about it, with what is wanted of
        it.  If it is no longer valid it goes; if it is ready its own event is active when the
        rounds begin, and if that is delivered in the last one, what poll then says is reported;
        if not, nothing is reported of the file. */
    method WaitForPolled(ev: array<EpollEvent>, memory: bool, kevsMemory: bool, ghost fd: int)
      returns (ec: Errno, actual: nat, ghost who: seq<int>, ghost h: seq<Pass>, ghost k: nat)
      requires Valid() && Idle() && 1 <= ev.Length <= INT_MAX
      requires fd in registered && registered[fd].kind.PollOnly? && registered[fd].onList
      modifies this, pfds, ev
      modifies kernel`calls, kernel`polled, kernel`queue, kernel`repoll, kernel`repollActive, kernel`deliveries
      ensures Valid() && Idle() && (pfds == old(pfds) || fresh(pfds))
      ensures old(kernel.calls) <= kernel.calls
      ensures k < |old(pollFds)| && old(pollFds)[k] == fd
      ensures ec == OK ==> PolledOutcome(old(registered)[fd], k, h, ev[..], actual, who, old(kernel.polled), kernel.polled)
      ensures ec == OK && h != [] && fd !in h[0].start.nodes ==> fd !in registered
    {
      ghost var m, list, ds := MarkNow(), pollFds, kernel.deliveries;
      k :| 0 <= k < |pollFds| && pollFds[k] == fd;
      ghost var full;
      ec, actual, full, who, h := Wait(ev, memory, kevsMemory);
      if ec == OK {
        PolledMeans(h, ds, list, m, ev, actual, who, full, fd, k);
      }
    }

    /** What a wait makes of a file in the k-th place of the list. */
    ghost predicate PolledOutcome(n: Node, k: nat, h: seq<Pass>, ev: seq<EpollEvent>, j: nat, who: seq<int>, a: nat, b: nat) {
      && AskedAbout(n, kernel.ReplyAt(a + 1 + k, n.events), h)
      && (h == [] ==> j == 0)
      && (h != [] ==> if n.fd in h[0].start.nodes then PolledReport(n, h[|h| - 1].took, ev, j, who, a, b) else n.fd !in who)
    }

    /** What poll's answer on a file that is asked about leads to. */
    static ghost predicate AskedAbout(n: Node, reply: PollReply, h: seq<Pass>) {
      && (reply.Invalid? ==> h != [] && n.fd !in h[0].start.nodes)
      && (!reply.Invalid? && h != [] ==> n.fd in h[0].start.nodes)
      && (reply.Ready? && reply.bits != {} ==> h != [] && AtIn(h[0].start.queue, n.fd).active)
    }

    /** The file is reported if, and as, poll says something of it when its event comes. */
    ghost predicate PolledReport(n: Node, took: seq<KEvent>, ev: seq<EpollEvent>, j: nat, who: seq<int>, a: nat, b: nat) {
      if Self(n.fd) in took then exists i :: a <= i < b && ReportedAs(PollBits(kernel.ReplyAt(i, n.events)), n.data, n.fd, ev, j, who)
      else n.fd !in who
    }

    lemma PolledMeans(h: seq<Pass>, ds: seq<seq<KEvent>>, list: seq<int>, m: Mark, ev: array<EpollEvent>, j: nat, who: seq<int>,
                      full: bool, fd: int, k: nat)
      requires Waited(h, ds, list, m, ev, j, who, full) && Named(m.nodes) && Resting(m.nodes)
      requires fd in m.nodes && m.nodes[fd].kind.PollOnly? && m.nodes[fd].has == NO_FLAGS
      requires k < |list| && list[k] == fd && forall i, l :: 0 <= i < l < |list| ==> list[i] != list[l]
      ensures PolledOutcome(m.nodes[fd], k, h, ev[..], j, who, m.polled, kernel.polled)
      ensures h != [] && fd !in h[0].start.nodes ==> fd !in registered
    {
      var n := m.nodes[fd];
      SlotMeans(pfds[..], list, m, fd, k);
      if h != [] {
        ghost var cnt := Enlarged(ev.Length, |h[0].start.nodes|);
        AskedSlot(n, pfds[..], list, m, h, k);
        if fd in h[0].start.nodes {
          PolledStays(h, ds, cnt, m, fd, |h| - 1);
          PolledLast(h[|h| - 1], Left(ds, |h|), ev[..], j, who, full, m, fd);
        } else {
          SweptAway(h, ds, cnt, ev[..], j, who, full, fd);
        }
      }
    }

    /** The slot of a listed file has the answer to what is asked of it. */
    lemma SlotMeans(slots: seq<PollFd>, list: seq<int>, m: Mark, fd: int, k: nat)
      requires Asking(slots, kq, list, m.nodes) && Surveyed(slots, 1 + |list|, m.polled) && k < |list| && list[k] == fd
      ensures slots[1 + k] == Filled(slots[1 + k], kernel.ReplyAt(m.polled + 1 + k, m.nodes[fd].events))
    {
      assert slots[1 + k] == Filled(slots[1 + k], kernel.ReplyAt(m.polled + (1 + k), slots[1 + k].events));
    }

    lemma AskedSlot(n: Node, slots: seq<PollFd>, list: seq<int>, m: Mark, h: seq<Pass>, k: nat)
      requires h != [] && k < |list| < |slots| && list[k] == n.fd && n.fd in m.nodes
      requires forall i, l :: 0 <= i < l < |list| ==> list[i] != list[l]
      requires slots[1 + k] == Filled(slots[1 + k], kernel.ReplyAt(m.polled + 1 + k, n.events))
      requires Swept(m.nodes, h[0].start.nodes, list, slots, |list|) && Active(list, slots, |list|, h[0].start.queue)
      ensures AskedAbout(n, kernel.ReplyAt(m.polled + 1 + k, n.events), h)
      ensures n.fd in h[0].start.nodes ==> h[0].start.nodes[n.fd] == m.nodes[n.fd]
    {
    }

    lemma SweptAway(h: seq<Pass>, ds: seq<seq<KEvent>>, cnt: int, ev: seq<EpollEvent>, j: nat, who: seq<int>, full: bool, fd: int)
      requires History(h, ds, cnt, ev, j, who, full) && fd !in h[0].start.nodes
      requires Finished(h[|h| - 1].told, registered, who, h[|h| - 1].extra)
      ensures fd !in registered && fd !in who
    {
      SameKeys(h, ds, cnt, |h| - 1);
    }

    /** Nothing happens to the node in rounds that do not report it. */
    lemma {:induction false} PolledStays(h: seq<Pass>, ds: seq<seq<KEvent>>, cnt: int, m: Mark, fd: int, i: nat)
      requires i < |h| && Passes(h, ds, cnt) && AllTold(h, m) && fd in h[0].start.nodes
      requires forall l :: 0 <= l < |h| - 1 ==> Vain(h[l]) && h[l + 1].start.nodes == h[l].told
      requires h[0].start.nodes[fd].kind.PollOnly?
      ensures fd in h[i].start.nodes && h[i].start.nodes[fd] == h[0].start.nodes[fd]
      decreases i
    {
      if i > 0 {
        PolledStays(h, ds, cnt, m, fd, i - 1);
        PolledTold(h[i - 1], m, fd);
      }
    }

    /** What one round does to such a node. */
    lemma PolledTold(p: Pass, m: Mark, fd: int)
      requires Told(p.took, p.start.nodes, p.told, m.polled, kernel.polled, kernel.Clean(m.calls, kernel.calls))
      requires Addressed(p.took, p.start.nodes) && fd in p.start.nodes && p.start.nodes[fd].kind.PollOnly?
      requires p.start.nodes[fd].revents == {}
      ensures fd in p.told && p.told[fd] == p.start.nodes[fd].(revents := p.told[fd].revents)
      ensures if Self(fd) in p.took
              then exists i :: m.polled <= i < kernel.polled && p.told[fd].revents == PollBits(kernel.ReplyAt(i, p.start.nodes[fd].events))
              else p.told[fd].revents == {}
    {
      if Self(fd) in p.took {
        var l :| 0 <= l < |p.took| && p.took[l] == Self(fd);
        assert Polls(p.took[l], p.start.nodes[fd]);
        var i :| m.polled <= i < kernel.polled && Says(i, p.took[l], p.start.nodes[fd], p.told[fd]);
      } else {
        assert forall l :: 0 <= l < |p.took| ==> !Concerns(p.took[l], fd);
      }
    }

    lemma PolledLast(p: Pass, ds: seq<seq<KEvent>>, ev: seq<EpollEvent>, j: nat, who: seq<int>, full: bool, m: Mark, fd: int)
      requires Told(p.took, p.start.nodes, p.told, m.polled, kernel.polled, kernel.Clean(m.calls, kernel.calls))
      requires Addressed(p.took, p.start.nodes) && fd in p.start.nodes && p.start.nodes[fd].kind.PollOnly?
      requires p.start.nodes[fd].revents == {} && p.start.nodes[fd].has == NO_FLAGS && Named(p.start.nodes)
      requires Handled(p, ds, ev, j, who, full)
      ensures PolledReport(p.start.nodes[fd], p.took, ev, j, who, m.polled, kernel.polled)
    {
      PolledTold(p, m, fd);
      assert Named(p.told);
      NothingMore(p, ds, ev, j, who, full, fd);
      var n := p.start.nodes[fd];
      if Self(fd) in p.took {
        var i :| m.polled <= i < kernel.polled && p.told[fd].revents == PollBits(kernel.ReplyAt(i, n.events));
        assert ReportedAs(PollBits(kernel.ReplyAt(i, n.events)), n.data, fd, ev, j, who);
      }
    }

    /** EPOLL_CTL_ADD of a file that only poll can watch, and then a wait: the file is on the list,
        and in terms of what the caller has asked for, what poll says when its event comes is
        reported. */
    method AddPolledAndWait(x: int, hasDesc: bool, r: Request, nodeMemory: bool, ev: array<EpollEvent>, memory: bool, kevsMemory: bool)
      returns (added: Errno, ec: Errno, actual: nat, ghost who: seq<int>, ghost h: seq<Pass>, ghost k: nat, ghost first: nat)
      requires Valid() && Idle() && 1 <= ev.Length <= INT_MAX
      requires x !in registered && x in kernel.pollOnly && !r.unsupported && x != kq
      modifies this, pfds, ev
      modifies kernel`calls, kernel`polled, kernel`queue, kernel`repoll, kernel`repollActive, kernel`deliveries
      ensures Valid() && Idle()
      ensures added == OK && ec == OK ==> first == old(kernel.polled) + 1 + k
      ensures added == OK && ec == OK ==>
                AskedAs(r, x, first, h, ev[..], actual, who, old(kernel.polled), kernel.polled)
    {
      ec, actual, who, h, k, first := OK, 0, [], [], 0, 0;
      ghost var polled := kernel.polled;
      added := AddPolled(x, hasDesc, r, nodeMemory);
      if added == OK {
        assert kernel.polled == polled;
        ec, actual, who, h, k, first := WaitForPolledAsked(ev, memory, kevsMemory, x, r);
      }
    }

    method WaitForPolledAsked(ev: array<EpollEvent>, memory: bool, kevsMemory: bool, ghost x: int, ghost r: Request)
      returns (ec: Errno, actual: nat, ghost who: seq<int>, ghost h: seq<Pass>, ghost k: nat, ghost first: nat)
      requires Valid() && Idle() && 1 <= ev.Length <= INT_MAX
      requires x in registered && registered[x].kind.PollOnly? && registered[x].onList && Follows(registered[x], r)
      modifies this, pfds, ev
      modifies kernel`calls, kernel`polled, kernel`queue, kernel`repoll, kernel`repollActive, kernel`deliveries
      ensures Valid() && Idle() && old(kernel.calls) <= kernel.calls
      ensures first == old(kernel.polled) + 1 + k
      ensures ec == OK ==>
                AskedAs(r, x, first, h, ev[..], actual, who, old(kernel.polled), kernel.polled)
    {
      ghost var n, a := registered[x], kernel.polled;
      ec, actual, who, h, k := WaitForPolled(ev, memory, kevsMemory, x);
      first := a + 1 + k;
      if ec == OK {
        PolledAsAsked(n, r, k, h, ev[..], actual, who, a);
      }
    }

    /** What poll's answer comes to, for a caller who has asked for these bits. */
    static function AnswerBits(answer: PollReply, asked: Mask): Mask {
      match answer
      case Failed => {ERR}
      case Invalid => {}
      case Ready(bits) => bits * (asked + {HUP, ERR})
    }

    /** The answer `first` is what poll says before the rounds. */
    ghost predicate AskedAs(r: Request, x: int, first: nat, h: seq<Pass>, ev: seq<EpollEvent>, j: nat, who: seq<int>, a: nat, b: nat) {
      match kernel.Answer(first)
      case Invalid => h != [] && x !in h[0].start.nodes && x !in who
      case Failed => SaidLast(r, x, h, ev, j, who, a, b)
      case Ready(bits) =>
        && (bits * ((r.bits * {IN, OUT}) + {HUP, ERR}) != {} ==> h != [] && AtIn(h[0].start.queue, x).active)
        && SaidLast(r, x, h, ev, j, who, a, b)
    }

    /** What poll says when the event of the file comes in the last round is reported, and nothing
        without. */
    ghost predicate SaidLast(r: Request, x: int, h: seq<Pass>, ev: seq<EpollEvent>, j: nat, who: seq<int>, a: nat, b: nat) {
      h != [] && x in h[0].start.nodes ==>
        if Self(x) in h[|h| - 1].took
        then exists i :: a <= i < b && ReportedAs(AnswerBits(kernel.Answer(i), r.bits * {IN, OUT}), r.data, x, ev, j, who)
        else x !in who
    }

    lemma PolledAsAsked(n: Node, r: Request, k: nat, h: seq<Pass>, ev: seq<EpollEvent>, j: nat, who: seq<int>, a: nat)
      requires Follows(n, r) && n.kind.PollOnly? && PolledOutcome(n, k, h, ev, j, who, a, kernel.polled)
      ensures AskedAs(r, n.fd, a + 1 + k, h, ev, j, who, a, kernel.polled)
    {
      var asked := r.bits * {IN, OUT};
      AsksMeans(r, n.kind);
      assert forall i: nat :: PollBits(kernel.ReplyAt(i, n.events)) == AnswerBits(kernel.Answer(i), asked);
      if h != [] && n.fd in h[0].start.nodes && Self(n.fd) in h[|h| - 1].took {
        var i :| a <= i < kernel.polled && ReportedAs(PollBits(kernel.ReplyAt(i, n.events)), n.data, n.fd, ev, j, who);
        assert ReportedAs(AnswerBits(kernel.Answer(i), asked), r.data, n.fd, ev, j, who);
      }
    }

    method AddPolled(x: int, hasDesc: bool, r: Request, memory: bool) returns (ec: Errno)
      requires Valid() && Idle() && x !in registered && x in kernel.pollOnly && !r.unsupported && x != kq
      modifies `pollFds, `pollFdsSize, `polling, `registered, `registeredSize, `drifted
      modifies kernel`calls, kernel`queue, kernel`repoll, kernel`repollActive
      ensures Valid() && Idle()
      ensures memory && kernel.Clean(old(kernel.calls), kernel.calls) ==> ec == OK
      ensures ec == OK ==>
                && old(kernel.calls) <= kernel.calls
                && x in registered && Follows(registered[x], r) && registered[x].kind.PollOnly? && registered[x].fd == x
                && registered[x].onList && x in pollFds && polling == []
    {
      ghost var a := kernel.calls;
      ec := Ctl(Add, x, hasDesc, r, OtherFile, memory);
      if memory {
        kernel.CleanSucceeds(ec, a, kernel.calls, x, Devices);
      }
    }

    // -- kqueues of this library --

    /** A wait, for the kqueue of another descriptor of this library: if the last round has an event
        of it, what its poll function says is reported, and nothing otherwise. */
    method WaitForKQueue(ev: array<EpollEvent>, memory: bool, kevsMemory: bool, ghost fd: int)
      returns (ec: Errno, actual: nat, ghost who: seq<int>, ghost h: seq<Pass>)
      requires Valid() && Idle() && 1 <= ev.Length <= INT_MAX
      requires fd in registered && registered[fd].kind.KQueue? && registered[fd].hasDesc
      modifies this, pfds, ev
      modifies kernel`calls, kernel`polled, kernel`queue, kernel`repoll, kernel`repollActive, kernel`deliveries
      ensures Valid() && Idle() && (pfds == old(pfds) || fresh(pfds))
      ensures ec == OK && h != [] ==>
                KQueueOutcome(old(registered)[fd], h[|h| - 1].took, ev[..], actual, who, old(kernel.polled), kernel.polled)
    {
      ghost var m, list, ds := MarkNow(), pollFds, kernel.deliveries;
      Unlisted(fd);
      ghost var full;
      ec, actual, full, who, h := Wait(ev, memory, kevsMemory);
      if ec == OK && h != [] {
        ghost var cnt := Enlarged(ev.Length, |h[0].start.nodes|);
        KeptOn(h, ds, cnt, fd, |h| - 1);
        KQueueLast(m.nodes[fd], h[|h| - 1], Left(ds, |h|), ev[..], actual, who, full, m, fd);
      }
    }

    ghost predicate KQueueOutcome(n: Node, took: seq<KEvent>, ev: seq<EpollEvent>, j: nat, who: seq<int>, a: nat, b: nat) {
      if exists l :: 0 <= l < |took| && Concerns(took[l], n.fd)
      then exists i :: a <= i < b && ReportedAs(If(kernel.Pending(i) && n.events.input, {IN}), n.data, n.fd, ev, j, who)
      else n.fd !in who
    }

    lemma KQueueLast(n: Node, p: Pass, ds: seq<seq<KEvent>>, ev: seq<EpollEvent>, j: nat, who: seq<int>, full: bool, m: Mark, fd: int)
      requires Told(p.took, p.start.nodes, p.told, m.polled, kernel.polled, kernel.Clean(m.calls, kernel.calls))
      requires Addressed(p.took, p.start.nodes) && fd in p.start.nodes && n.kind.KQueue? && n.hasDesc && n.fd == fd
      requires Kept(n, p.start.nodes[fd]) && Resting(p.start.nodes) && Named(p.start.nodes) && Sensible(p.told)
      requires Handled(p, ds, ev, j, who, full)
      ensures KQueueOutcome(n, p.took, ev, j, who, m.polled, kernel.polled)
    {
      KQueueTold(n, p, m, fd);
      ToldReported(p, ds, ev, j, who, full, fd);
      if exists l :: 0 <= l < |p.took| && Concerns(p.took[l], fd) {
        var i :| m.polled <= i < kernel.polled && p.told[fd].revents == If(kernel.Pending(i) && n.events.input, {IN});
        assert ReportedAs(If(kernel.Pending(i) && n.events.input, {IN}), n.data, fd, ev, j, who);
      }
    }

    /** What one round tells of such a kqueue. */
    lemma KQueueTold(n: Node, p: Pass, m: Mark, fd: int)
      requires Told(p.took, p.start.nodes, p.told, m.polled, kernel.polled, kernel.Clean(m.calls, kernel.calls))
      requires Addressed(p.took, p.start.nodes) && fd in p.start.nodes && n.kind.KQueue? && n.hasDesc
      requires Kept(n, p.start.nodes[fd]) && p.start.nodes[fd].revents == {}
      ensures fd in p.told && Kept(n, p.told[fd])
      ensures if exists l :: 0 <= l < |p.took| && Concerns(p.took[l], fd)
              then exists i :: m.polled <= i < kernel.polled && p.told[fd].revents == If(kernel.Pending(i) && n.events.input, {IN})
              else p.told[fd].revents == {}
    {
      assert Kept(p.start.nodes[fd], p.told[fd]);
      if exists l :: 0 <= l < |p.took| && Concerns(p.took[l], fd) {
        KQueueSaid(p, m, fd);
        var i :| m.polled <= i < kernel.polled && p.told[fd].revents == If(kernel.Pending(i) && p.start.nodes[fd].events.input, {IN});
        assert p.told[fd].revents == If(kernel.Pending(i) && n.events.input, {IN});
      } else {
        assert p.told[fd] == p.start.nodes[fd];
      }
    }

    lemma KQueueSaid(p: Pass, m: Mark, fd: int)
      requires PollTold(p.took, p.start.nodes, p.told, m.polled, kernel.polled) && Addressed(p.took, p.start.nodes)
      requires fd in p.start.nodes && p.start.nodes[fd].kind.KQueue? && p.start.nodes[fd].hasDesc
      requires exists l :: 0 <= l < |p.took| && Concerns(p.took[l], fd)
      ensures fd in p.told
      ensures exists i :: m.polled <= i < kernel.polled && p.told[fd].revents == If(kernel.Pending(i) && p.start.nodes[fd].events.input, {IN})
    {
      var l :| 0 <= l < |p.took| && Concerns(p.took[l], fd);
      assert Polls(p.took[l], p.start.nodes[fd]);
      var i :| m.polled <= i < kernel.polled && Says(i, p.took[l], p.start.nodes[fd], p.told[fd]);
      assert p.told[fd].revents == If(kernel.Pending(i) && p.start.nodes[fd].events.input, {IN});
    }

    /** A kqueue is reported as it has been told. */
    static lemma ToldReported(p: Pass, ds: seq<seq<KEvent>>, ev: seq<EpollEvent>, j: nat, who: seq<int>, full: bool, fd: int)
      requires Handled(p, ds, ev, j, who, full) && Named(p.told) && fd in p.told && p.told[fd].kind.KQueue?
      requires p.told[fd].Sound() && p.told[fd].Reporting()
      ensures ReportedAs(p.told[fd].revents, p.told[fd].data, fd, ev, j, who)
    {
      if fd in who {
        NothingMore(p, ds, ev, j, who, full, fd);
      }
    }

    // -- FIFOs --

    /** A wait, for a level-triggered FIFO that has one end and its filter: as long as no call fails,
        the buffer has room and the filter delivers as it fires in the last round, the FIFO is
        reported as its state asks for. */
    method WaitForFifo(ev: array<EpollEvent>, memory: bool, kevsMemory: bool, ghost fd: int, ghost c: Pipe)
      returns (ec: Errno, actual: nat, ghost full: bool, ghost who: seq<int>, ghost h: seq<Pass>)
      requires Valid() && Idle() && 1 <= ev.Length <= INT_MAX
      requires fd in registered && registered[fd].kind.Fifo? && registered[fd].kind.readable != registered[fd].kind.writable
      requires !registered[fd].edge
      modifies this, pfds, ev
      modifies kernel`calls, kernel`polled, kernel`queue, kernel`repoll, kernel`repollActive, kernel`deliveries
      ensures Valid() && Idle() && (pfds == old(pfds) || fresh(pfds))
      ensures old(kernel.calls) <= kernel.calls
      ensures ec == OK && |old(registered)| <= ev.Length ==> !full
      ensures ec == OK && h != [] && !full && kernel.Clean(old(kernel.calls), kernel.calls) ==>
                var n, evs := old(registered)[fd], EventsOf(h[|h| - 1].took, fd);
                (n.has.read || n.has.write) && FifoFits(n.kind, c, evs) ==> ReportedAs(FifoDue(n.kind, Bits(n.events), c, evs), n.data, fd, ev[..], actual, who)
    {
      ghost var m, list, ds := MarkNow(), pollFds, kernel.deliveries;
      FifoUnlisted(fd);
      ec, actual, full, who, h := Wait(ev, memory, kevsMemory);
      if ec == OK && h != [] && !full && kernel.Clean(m.calls, kernel.calls) && (m.nodes[fd].has.read || m.nodes[fd].has.write) &&
         FifoFits(m.nodes[fd].kind, c, EventsOf(h[|h| - 1].took, fd)) {
        ghost var cnt := Enlarged(ev.Length, |h[0].start.nodes|);
        FifoOn(h, ds, cnt, fd, |h| - 1);
        FifoLast(m.nodes[fd], h[|h| - 1], Left(ds, |h|), ev[..], actual, who, fd, c);
      }
    }

    lemma FifoUnlisted(fd: int)
      requires Valid() && fd in registered && registered[fd].kind.Fifo?
      ensures fd !in pollFds && registered[fd].Ready()
    {
      assert Good(registered[fd], kernel.At(fd), fd in kernel.pollOnly, fd in drifted);
    }

    lemma FifoLast(n: Node, p: Pass, ds: seq<seq<KEvent>>, ev: seq<EpollEvent>, j: nat, who: seq<int>, fd: int, c: Pipe)
      requires FifosFolded(p.start.nodes, p.told, p.took) && SameFiles(p.start.nodes, p.told) && fd in p.start.nodes && Named(p.start.nodes)
      requires n.kind.Fifo? && n.kind.readable != n.kind.writable && n.Ready() && !n.edge && Resting(p.start.nodes)
      requires var s := p.start.nodes[fd]; Kept(n, s) && s.has.read == n.has.read && (s.has.read || s.has.write)
      requires Handled(p, ds, ev, j, who, false) && FifoFits(n.kind, c, EventsOf(p.took, fd))
      ensures ReportedAs(FifoDue(n.kind, Bits(n.events), c, EventsOf(p.took, fd)), n.data, fd, ev, j, who)
    {
      var evs := EventsOf(p.took, fd);
      var s := n.(eof := p.start.nodes[fd].eof, got := p.start.nodes[fd].got, revents := {});
      FifoTold(s, c, evs);
      assert Fold(p.start.nodes[fd], evs) == Fold(s, evs);
      assert Named(p.told);
      NothingExtra(p, ds, ev, j, who, fd);
    }

    /** EPOLL_CTL_ADD of a FIFO that is open one way, level-triggered, and then a wait: what the caller
        has asked for is reported as it is due. */
    method AddFifoAndWait(x: int, hasDesc: bool, r: Request, mode: FileMode, nodeMemory: bool, ev: array<EpollEvent>, memory: bool,
                          kevsMemory: bool, ghost c: Pipe)
      returns (added: Errno, ec: Errno, actual: nat, ghost full: bool, ghost who: seq<int>, ghost h: seq<Pass>)
      requires Valid() && Idle() && 1 <= ev.Length <= INT_MAX
      requires x !in registered && (mode.ReadOnly? || mode.WriteOnly?) && !r.edge && !r.oneshot && !r.unsupported && x != kq
      modifies this, pfds, ev
      modifies kernel`calls, kernel`polled, kernel`queue, kernel`repoll, kernel`repollActive, kernel`deliveries
      ensures Valid() && Idle()
      ensures added == OK && ec == OK && !full ==> FifoServed(old(kernel.calls), r, mode, c, h, x, ev[..], actual, who)
    {
      ec, actual, full, who, h := OK, 0, false, [], [];
      ghost var a := kernel.calls;
      added := AddFifo(x, hasDesc, r, mode, nodeMemory);
      if added == OK {
        ghost var b, filters := kernel.calls, registered[x].has.read || registered[x].has.write;
        ec, actual, full, who, h := WaitForFifoAsked(ev, memory, kevsMemory, x, r, mode, c);
        if ec == OK && !full {
          FifoServedSince(a, b, filters, r, mode, c, h, x, ev[..], actual, who);
        }
      }
    }

    /** The rounds of a wait, if there were any and no call since the `a`-th has failed, have answered
        for the FIFO. */
    ghost predicate FifoServed(a: nat, r: Request, mode: FileMode, c: Pipe, h: seq<Pass>, x: int, ev: seq<EpollEvent>, j: nat, who: seq<int>)
      reads kernel`calls
    {
      h != [] && kernel.Clean(a, kernel.calls) ==> FifoAnswer(r, mode, c, EventsOf(h[|h| - 1].took, x), x, ev, j, who)
    }

    lemma FifoServedSince(a: nat, b: nat, filters: bool, r: Request, mode: FileMode, c: Pipe, h: seq<Pass>, x: int,
                          ev: seq<EpollEvent>, j: nat, who: seq<int>)
      requires a <= b <= kernel.calls && (kernel.Clean(a, b) ==> filters)
      requires filters ==> FifoServed(b, r, mode, c, h, x, ev, j, who)
      ensures FifoServed(a, r, mode, c, h, x, ev, j, who)
    {
      kernel.CleanParts(a, b, kernel.calls);
    }

    /** If its events fit the state of the FIFO, what is due of it is reported to a caller who has
        asked with `r`. */
    static ghost predicate FifoAnswer(r: Request, mode: FileMode, c: Pipe, evs: seq<Event>, x: int, ev: seq<EpollEvent>, j: nat, who: seq<int>) {
      if mode.ReadOnly?
      then
        (if c.bytes > 0 || c.alone then |evs| == 1 && evs[0].filter == Read && PipeTells(c, evs[0]) else evs == []) ==>
          ReportedAs(If(c.bytes > 0, {IN} * r.bits) + If(c.alone, {HUP}) + If(Failing(evs), {ERR}), r.data, x, ev, j, who)
      else
        (if c.room >= 512 || c.alone then |evs| == 1 && evs[0].filter == Write && PipeTells(c, evs[0]) else evs == []) ==>
          ReportedAs(If(c.room >= 512, {OUT} * r.bits) + If(c.alone || Failing(evs), {ERR}), r.data, x, ev, j, who)
    }

    /** The first event says that something failed. */
    static predicate Failing(evs: seq<Event>) { evs != [] && (evs[0].error || (evs[0].eof && evs[0].fflags)) }

    method WaitForFifoAsked(ev: array<EpollEvent>, memory: bool, kevsMemory: bool, ghost x: int, ghost r: Request, ghost mode: FileMode,
                            ghost c: Pipe)
      returns (ec: Errno, actual: nat, ghost full: bool, ghost who: seq<int>, ghost h: seq<Pass>)
      requires Valid() && Idle() && 1 <= ev.Length <= INT_MAX && x in registered && !registered[x].edge
      requires Follows(registered[x], r) && registered[x].kind == KindOf(FifoFile(mode)) && (mode.ReadOnly? || mode.WriteOnly?)
      modifies this, pfds, ev
      modifies kernel`calls, kernel`polled, kernel`queue, kernel`repoll, kernel`repollActive, kernel`deliveries
      ensures Valid() && Idle()
      ensures old(kernel.calls) <= kernel.calls
      ensures ec == OK && |old(registered)| <= ev.Length ==> !full
      ensures ec == OK && !full && old(registered[x].has.read || registered[x].has.write) ==>
                FifoServed(old(kernel.calls), r, mode, c, h, x, ev[..], actual, who)
    {
      ghost var n := registered[x];
      ec, actual, full, who, h := WaitForFifo(ev, memory, kevsMemory, x, c);
      if h != [] {
        FifoAsAsked(n, r, mode, c, EventsOf(h[|h| - 1].took, x));
      }
    }

    static lemma FifoAsAsked(n: Node, r: Request, mode: FileMode, c: Pipe, evs: seq<Event>)
      requires Follows(n, r) && n.kind == KindOf(FifoFile(mode)) && (mode.ReadOnly? || mode.WriteOnly?)
      ensures n.kind == if mode.ReadOnly? then Fifo(true, false) else Fifo(false, true)
      ensures (|evs| == 1 && evs[0].filter != Except) || evs == [] ==>
                FifoDue(n.kind, Bits(n.events), c, evs)
                == if mode.ReadOnly? then If(c.bytes > 0, {IN} * r.bits) + If(c.alone, {HUP}) + If(Failing(evs), {ERR})
                   else If(c.room >= 512, {OUT} * r.bits) + If(c.alone || Failing(evs), {ERR})
    {
      AsksMeans(r, n.kind);
    }

    method AddFifo(x: int, hasDesc: bool, r: Request, mode: FileMode, memory: bool) returns (ec: Errno)
      requires Valid() && Idle() && x !in registered && (mode.ReadOnly? || mode.WriteOnly?) && !r.edge && !r.oneshot && !r.unsupported && x != kq
      modifies `pollFds, `pollFdsSize, `polling, `registered, `registeredSize, `drifted
      modifies kernel`calls, kernel`queue, kernel`repoll, kernel`repollActive
      ensures Valid() && Idle()
      ensures memory && x !in kernel.pollOnly && kernel.Clean(old(kernel.calls), kernel.calls) ==> ec == OK
      ensures ec == OK ==>
                && old(kernel.calls) <= kernel.calls
                && x in registered && Follows(registered[x], r) && registered[x].kind == KindOf(FifoFile(mode)) && registered[x].fd == x
                && !registered[x].edge
                && (kernel.Clean(old(kernel.calls), kernel.calls) ==> registered[x].has.read || registered[x].has.write)
    {
      ghost var a := kernel.calls;
      ec := Ctl(Add, x, hasDesc, r, FifoFile(mode), memory);
      if memory {
        kernel.CleanSucceeds(ec, a, kernel.calls, x, Pipes);
      }
      if ec == OK {
        NeverEmpty(registered[x].Interest());
      }
    }

    // -- runs --

    /** Any sequence of calls, of threads that begin and end polling, and of files that are
        opened under numbers that are not registered: whenever the mutex is free, everything
        that the descriptor keeps agrees. */
    method Run(calls: seq<EpollCall>)
      requires Valid() && Idle()
      modifies this, kernel, pfds
      ensures Valid() && Idle()
    {
      for i := 0 to |calls|
        invariant Valid() && Idle() && (pfds == old(pfds) || fresh(pfds))
      {
        match calls[i] {
          case CtlCall(op, fd, hasDesc, r, stat, memory) =>
            var ec := Ctl(op, fd, hasDesc, r, stat, memory);
          case CloseCall(fd) =>
            RemoveFd(fd);
          case WaitCall(cnt, memory, kevsMemory) =>
            var ev := new EpollEvent[cnt](_ => EpollEvent({}, User(0)));
            var ec, actual, full, who, h := Wait(ev, memory, kevsMemory);
          case EnterCall(memory) =>
            var ec := EnterPoll(memory);
          case LeaveCall(t) =>
            if t < |polling| {
              LeavePoll(t);
            }
          case OpenCall(fd, pollOnly) =>
            if fd !in registered {
              kernel.pollOnly := if pollOnly then kernel.pollOnly + {fd} else kernel.pollOnly - {fd};
            }
        }
      }
    }
  }
}
