/** How a change of the list of poll-only files reaches threads that are blocked in ppoll with
    a snapshot of it: every mutex, counter and condition variable operation is one step of one
    of any number of threads.  A section under `nr_polling_threads_mutex` is one step, as it
    blocks nowhere but in the wait on the condition variable, which releases that mutex. */
module RepollProtocol {
  import opened Collections
  import opened Sums

  /** What poll is asked for one file. */
  datatype Slot = Slot(fd: int, events: int)

  type Snapshot = seq<Slot>

  /** Where a thread stands.  The comments name the operation it does next. */
  datatype Pc =
    | Idle                          // takes the descriptor's mutex
    | Inside                        // holds it, in epoll_ctl, close or the body of the wait
    | Changed                       // has changed the list: reads the number of polling threads
    | Posting                       // triggers the user event of the kqueue
    | Checking                      // tests whether there are polling threads
    | Asleep                        // waits on the condition variable
    | Filled(snapshot: Snapshot)    // has filled its array: counts itself
    | Counted(snapshot: Snapshot)   // releases the mutex
    | Polling(snapshot: Snapshot)   // in ppoll
    | Leaving                       // has left ppoll and freed its array: takes itself off the count

  datatype Action = Continue | Drain | Change(list: Snapshot) | TakeSnapshot | Release | Return

  /** `posted`: the kqueue has an active user event, which makes it readable. */
  datatype State = State(list: Snapshot, posted: bool, polling: int, mutex: Option<nat>, pcs: seq<Pc>)

  ghost predicate Init(s: State) {
    s.polling == 0 && s.mutex == None && forall t :: 0 <= t < |s.pcs| ==> s.pcs[t] == Idle
  }

  /** Thread `t` can do `a` now.  ppoll goes on when the user event of the kqueue is active; it may
      also return for a timeout, a signal or another file, which nobody can count on.  A wait on
      the condition variable may end without a signal. */
  predicate Enabled(s: State, t: nat, a: Action)
    requires t < |s.pcs|
  {
    match s.pcs[t]
    case Idle => a == Continue && s.mutex == None
    case Inside => a != Continue && a != Return
    case Polling(_) => (a == Continue && s.posted) || a == Return
    case _ => a == Continue
  }

  function Step(s: State, t: nat, a: Action): State
    requires t < |s.pcs| && Enabled(s, t, a)
  {
    match s.pcs[t]
    case Idle => s.(mutex := Some(t), pcs := s.pcs[t := Inside])
    case Inside =>
      (match a
       case Drain => s.(posted := false)
       case Change(list) => s.(list := list, pcs := s.pcs[t := Changed])
       case TakeSnapshot => s.(pcs := s.pcs[t := Filled(s.list)])
       case _ => s.(mutex := None, pcs := s.pcs[t := Idle]))
    case Changed => s.(pcs := s.pcs[t := if s.polling == 0 then Inside else Posting])
    case Posting => s.(posted := true, pcs := s.pcs[t := Checking])
    case Checking => s.(pcs := s.pcs[t := if s.polling == 0 then Inside else Asleep])
    case Asleep => s.(pcs := s.pcs[t := Checking])
    case Filled(snapshot) => s.(polling := s.polling + 1, pcs := s.pcs[t := Counted(snapshot)])
    case Counted(snapshot) => s.(mutex := None, pcs := s.pcs[t := Polling(snapshot)])
    case Polling(_) => s.(pcs := s.pcs[t := Leaving])
    case Leaving =>
      var rest := s.pcs[t := Idle];
      s.(polling := s.polling - 1, pcs := if s.polling == 1 then Woken(rest) else rest)
  }

  /** pthread_cond_signal: at most one thread waits, as it holds the descriptor's mutex. */
  function Woken(pcs: seq<Pc>): seq<Pc> {
    seq(|pcs|, t requires 0 <= t < |pcs| => if pcs[t] == Asleep then Checking else pcs[t])
  }

  // ---- the invariant ----

  predicate HoldsMutex(pc: Pc) { !pc.Idle? && !pc.Polling? && !pc.Leaving? }

  /** The thread has changed the list, and has not seen all pollers leave. */
  predicate Changing(pc: Pc) { pc.Changed? || pc.Posting? || pc.Checking? || pc.Asleep? }

  /** The thread is a changer that waits for the pollers. */
  predicate Waits(pc: Pc) { pc.Checking? || pc.Asleep? }

  predicate HasSnapshot(pc: Pc) { pc.Filled? || pc.Counted? || pc.Polling? }

  function InWindow(pc: Pc): int { if pc.Counted? || pc.Polling? || pc.Leaving? then 1 else 0 }

  predicate ChangePending(s: State) {
    s.mutex.Some? && s.mutex.value < |s.pcs| && Changing(s.pcs[s.mutex.value])
  }

  /** The mutex has one holder; unless that is changing the list, every snapshot is the current
      list; and while it waits the kqueue is readable. */
  ghost predicate Steady(s: State) {
    && (s.mutex.Some? ==> s.mutex.value < |s.pcs|)
    && (forall t :: 0 <= t < |s.pcs| ==> (HoldsMutex(s.pcs[t]) <==> s.mutex == Some(t)))
    && (!ChangePending(s) ==> forall t :: 0 <= t < |s.pcs| && HasSnapshot(s.pcs[t]) ==> s.pcs[t].snapshot == s.list)
    && (forall t :: 0 <= t < |s.pcs| && Waits(s.pcs[t]) ==> s.posted)
  }

  ghost predicate Inv(s: State) {
    && Steady(s) && s.polling == Sum(s.pcs, InWindow)
    && (forall t :: 0 <= t < |s.pcs| && s.pcs[t].Asleep? ==> s.polling > 0)
  }

  lemma InitInv(s: State)
    requires Init(s)
    ensures Inv(s)
  {
    SumZero(s.pcs, InWindow);
  }

  /** With nobody counted nobody is in the window. */
  lemma NobodyPolls(s: State)
    requires s.polling == Sum(s.pcs, InWindow) && s.polling == 0
    ensures forall t :: 0 <= t < |s.pcs| ==> InWindow(s.pcs[t]) == 0
  {
    forall t | 0 <= t < |s.pcs| ensures InWindow(s.pcs[t]) == 0 {
      SumTerm(s.pcs, t, InWindow);
    }
  }

  lemma WokenSum(pcs: seq<Pc>)
    ensures |Woken(pcs)| == |pcs| && Sum(Woken(pcs), InWindow) == Sum(pcs, InWindow)
  {
    SumSame(Woken(pcs), pcs, InWindow, InWindow);
  }

  /** Every step of every thread keeps the invariant. */
  lemma StepInv(s: State, t: nat, a: Action)
    requires Inv(s) && t < |s.pcs| && Enabled(s, t, a)
    ensures Inv(Step(s, t, a))
  {
    assert HoldsMutex(s.pcs[t]) <==> s.mutex == Some(t);
    if s.pcs[t].Leaving? {
      LeaveInv(s, t);
    } else if s.pcs[t].Changed? || s.pcs[t].Checking? {
      CheckInv(s, t);
    } else if s.pcs[t].Inside? {
      InsideInv(s, t, a);
    } else {
      MoveInv(s, t, a);
    }
  }

  lemma InsideInv(s: State, t: nat, a: Action)
    requires Inv(s) && t < |s.pcs| && s.pcs[t].Inside? && Enabled(s, t, a)
    ensures Inv(Step(s, t, a))
  {
    assert HoldsMutex(s.pcs[t]) <==> s.mutex == Some(t);
    SumUpdate(s.pcs, t, Step(s, t, a).pcs[t], InWindow);
  }

  lemma MoveInv(s: State, t: nat, a: Action)
    requires Inv(s) && t < |s.pcs| && Enabled(s, t, a)
    requires !s.pcs[t].Inside? && !s.pcs[t].Leaving? && !s.pcs[t].Changed? && !s.pcs[t].Checking?
    ensures Inv(Step(s, t, a))
  {
    assert HoldsMutex(s.pcs[t]) <==> s.mutex == Some(t);
    SumUpdate(s.pcs, t, Step(s, t, a).pcs[t], InWindow);
    if s.pcs[t].Filled? {
      SumNonNegative(s.pcs, InWindow);
    }
  }

  lemma CheckInv(s: State, t: nat)
    requires Inv(s) && t < |s.pcs| && (s.pcs[t].Changed? || s.pcs[t].Checking?)
    ensures Inv(Step(s, t, Continue))
  {
    assert HoldsMutex(s.pcs[t]) <==> s.mutex == Some(t);
    SumUpdate(s.pcs, t, Step(s, t, Continue).pcs[t], InWindow);
    SumNonNegative(s.pcs, InWindow);
    if s.polling == 0 {
      NobodyPolls(s);
    }
  }

  lemma LeaveInv(s: State, t: nat)
    requires Inv(s) && t < |s.pcs| && s.pcs[t].Leaving?
    ensures Inv(Step(s, t, Continue))
  {
    var rest := s.pcs[t := Idle];
    SumUpdate(s.pcs, t, Idle, InWindow);
    SumNonNegative(rest, InWindow);
    WokenSum(rest);
    IdleKeeps(s, t);
    if s.polling == 1 {
      WokenKeeps(s.(polling := 0, pcs := rest));
    }
  }

  lemma IdleKeeps(s: State, t: nat)
    requires Steady(s) && t < |s.pcs| && s.pcs[t].Leaving?
    ensures Steady(s.(polling := s.polling - 1, pcs := s.pcs[t := Idle]))
  {
    assert HoldsMutex(s.pcs[t]) <==> s.mutex == Some(t);
  }

  lemma WokenKeeps(s: State)
    requires Steady(s)
    ensures Steady(s.(pcs := Woken(s.pcs))) && forall t :: 0 <= t < |s.pcs| ==> !Woken(s.pcs)[t].Asleep?
  {
  }

  // ---- runs ----

  datatype Event = Event(thread: nat, action: Action)

  predicate CanRun(s: State, run: seq<Event>)
    decreases |run|
  {
    run == [] ||
    (&& run[0].thread < |s.pcs| && Enabled(s, run[0].thread, run[0].action)
     && CanRun(Step(s, run[0].thread, run[0].action), run[1..]))
  }

  function Run(s: State, run: seq<Event>): State
    requires CanRun(s, run)
    decreases |run|
  {
    if run == [] then s else Run(Step(s, run[0].thread, run[0].action), run[1..])
  }

  lemma {:induction false} RunInv(s: State, run: seq<Event>)
    requires Inv(s) && CanRun(s, run)
    ensures Inv(Run(s, run))
    decreases |run|
  {
    if run != [] {
      StepInv(s, run[0].thread, run[0].action);
      RunInv(Step(s, run[0].thread, run[0].action), run[1..]);
    }
  }

  lemma RunFirst(s: State, e: Event, rest: seq<Event>)
    requires e.thread < |s.pcs| && Enabled(s, e.thread, e.action) && CanRun(Step(s, e.thread, e.action), rest)
    ensures CanRun(s, [e] + rest) && Run(s, [e] + rest) == Run(Step(s, e.thread, e.action), rest)
  {
    assert ([e] + rest)[1..] == rest;
  }

  // ---- what the protocol is for ----

  /** Whenever the descriptor's mutex is free, every thread in ppoll polls on the current list,
      files and events, and the counter is the number of threads in the window. */
  lemma SnapshotsAreCurrent(s: State, run: seq<Event>)
    requires Init(s) && CanRun(s, run)
    ensures var r := Run(s, run);
            && (r.mutex == None ==> forall t :: 0 <= t < |r.pcs| && r.pcs[t].Polling? ==> r.pcs[t].snapshot == r.list)
            && r.polling == Sum(r.pcs, InWindow)
  {
    InitInv(s);
    RunInv(s, run);
  }

  /** While a changer waits, the kqueue is readable, so no poller stays blocked in ppoll. */
  lemma PollersAreWoken(s: State, run: seq<Event>, t: nat)
    requires Init(s) && CanRun(s, run) && t < |Run(s, run).pcs| && Waits(Run(s, run).pcs[t])
    ensures Run(s, run).posted
  {
    InitInv(s);
    RunInv(s, run);
  }

  /** Nothing a waiting changer needs is undone by the others: whatever another thread does, it
      goes on waiting or is woken, the list stays, the kqueue stays readable, no thread enters
      the window, and the thread is one step closer to having left it. */
  lemma OthersOnlyLeave(s: State, t: nat, u: nat, a: Action)
    requires Inv(s) && t < |s.pcs| && Waits(s.pcs[t]) && u < |s.pcs| && u != t && Enabled(s, u, a)
    ensures var s' := Step(s, u, a);
            && Waits(s'.pcs[t]) && s'.list == s.list && s'.posted
            && Distance(s') == Distance(s) - 1
  {
    assert HoldsMutex(s.pcs[t]) && s.mutex == Some(t);
    assert HoldsMutex(s.pcs[u]) <==> s.mutex == Some(u);
    SumUpdate(s.pcs, u, if s.pcs[u].Polling? then Leaving else Idle, StepsToLeave);
    SumSame(Woken(s.pcs[u := Idle]), s.pcs[u := Idle], StepsToLeave, StepsToLeave);
  }

  function StepsToLeave(pc: Pc): int { if pc.Polling? then 2 else if pc.Leaving? then 1 else 0 }

  /** How many steps the pollers still have to do until all have left. */
  function Distance(s: State): int { Sum(s.pcs, StepsToLeave) }

  /** A waiting changer sleeps only while somebody is there to wake it, who can go on because the
      kqueue is readable: when the last poller has left it is awake and its next step ends the
      wait. */
  lemma WaitEnds(s: State, t: nat)
    requires Inv(s) && t < |s.pcs| && Waits(s.pcs[t])
    ensures Distance(s) >= 0
    ensures Distance(s) > 0 ==> exists u :: 0 <= u < |s.pcs| && u != t && Enabled(s, u, Continue) && (s.pcs[u].Polling? || s.pcs[u].Leaving?)
    ensures Distance(s) == 0 ==> s.pcs[t].Checking? && Step(s, t, Continue).pcs[t] == Inside
  {
    SumNonNegative(s.pcs, StepsToLeave);
    if Distance(s) > 0 {
      var u := SumWitness(s.pcs, StepsToLeave);
      assert Enabled(s, u, Continue);
    } else {
      forall u | 0 <= u < |s.pcs| ensures InWindow(s.pcs[u]) == 0 {
        SumTerm(s.pcs, u, StepsToLeave);
        assert HoldsMutex(s.pcs[t]) && HoldsMutex(s.pcs[u]) ==> u == t;
      }
      SumZero(s.pcs, InWindow);
    }
  }

  /** However the others are scheduled, they take no more steps than that before all have left. */
  lemma {:induction false} WaitIsBounded(s: State, t: nat, run: seq<Event>)
    requires Inv(s) && t < |s.pcs| && Waits(s.pcs[t]) && CanRun(s, run)
    requires forall i :: 0 <= i < |run| ==> run[i].thread != t
    ensures |run| <= Distance(s) && |Run(s, run).pcs| == |s.pcs| && Waits(Run(s, run).pcs[t])
    decreases |run|
  {
    if run == [] {
      SumNonNegative(s.pcs, StepsToLeave);
    } else {
      var e := run[0];
      OthersOnlyLeave(s, t, e.thread, e.action);
      StepInv(s, e.thread, e.action);
      WaitIsBounded(Step(s, e.thread, e.action), t, run[1..]);
    }
  }

  /** Without waiting for any timeout, signal or other file, the wait can be ended. */
  lemma {:induction false} WaitCanEnd(s: State, t: nat) returns (run: seq<Event>)
    requires Inv(s) && t < |s.pcs| && Waits(s.pcs[t])
    ensures CanRun(s, run) && |run| == Distance(s) + 1 && |Run(s, run).pcs| == |s.pcs| && Run(s, run).pcs[t] == Inside
    ensures forall i :: 0 <= i < |run| ==> run[i].action == Continue
    ensures var r := Run(s, run); r.list == s.list && r.polling == 0 && forall u :: 0 <= u < |s.pcs| ==> !HasSnapshot(r.pcs[u])
    decreases Distance(s)
  {
    WaitEnds(s, t);
    if Distance(s) == 0 {
      run := [Event(t, Continue)];
      ChangeReachesAll(s, t);
      assert run[1..] == [];
    } else {
      var u :| 0 <= u < |s.pcs| && u != t && Enabled(s, u, Continue) && (s.pcs[u].Polling? || s.pcs[u].Leaving?);
      OthersOnlyLeave(s, t, u, Continue);
      StepInv(s, u, Continue);
      WaitEnds(Step(s, u, Continue), t);
      var rest := WaitCanEnd(Step(s, u, Continue), t);
      RunFirst(s, Event(u, Continue), rest);
      run := [Event(u, Continue)] + rest;
    }
  }

  /** A change is over only when no thread is left with an older list. */
  lemma ChangeReachesAll(s: State, t: nat)
    requires Inv(s) && t < |s.pcs| && Changing(s.pcs[t]) && Step(s, t, Continue).pcs[t] == Inside
    ensures s.polling == 0 && forall u :: 0 <= u < |s.pcs| ==> !HasSnapshot(s.pcs[u])
  {
    NobodyPolls(s);
    forall u | 0 <= u < |s.pcs| ensures !HasSnapshot(s.pcs[u]) {
      assert HoldsMutex(s.pcs[u]) <==> s.mutex == Some(u);
      assert HoldsMutex(s.pcs[t]) <==> s.mutex == Some(t);
    }
  }

  // ---- no thread is stuck ----

  /** At most how many steps a thread takes from here until it is idle. */
  function ToDo(pc: Pc): int {
    match pc
    case Idle => 0
    case Inside => 1
    case Changed => 5
    case Posting => 4
    case Checking => 3
    case Asleep => 3
    case Filled(_) => 4
    case Counted(_) => 3
    case Polling(_) => 2
    case Leaving => 1
  }

  /** What leads a thread on: a section ends, a poller comes back. */
  function Onward(pc: Pc): Action {
    if pc.Inside? then Release else if pc.Polling? then Return else Continue
  }

  lemma WokenToDo(pcs: seq<Pc>)
    ensures |Woken(pcs)| == |pcs| && Sum(Woken(pcs), ToDo) == Sum(pcs, ToDo)
  {
    SumSame(Woken(pcs), pcs, ToDo, ToDo);
  }

  /** Unless it waits for pollers, or for the mutex, such a step brings a thread closer. */
  lemma Advances(s: State, t: nat)
    requires Inv(s) && t < |s.pcs| && !s.pcs[t].Idle? && !s.pcs[t].Asleep? && (s.pcs[t].Checking? ==> s.polling == 0)
    ensures Enabled(s, t, Onward(s.pcs[t]))
    ensures var r := Step(s, t, Onward(s.pcs[t])); |r.pcs| == |s.pcs| && Sum(r.pcs, ToDo) < Sum(s.pcs, ToDo) && r.list == s.list
  {
    var r := Step(s, t, Onward(s.pcs[t]));
    if s.pcs[t].Leaving? {
      SumUpdate(s.pcs, t, Idle, ToDo);
      WokenToDo(s.pcs[t := Idle]);
    } else {
      SumUpdate(s.pcs, t, r.pcs[t], ToDo);
    }
  }

  /** Who can do one of these steps. */
  lemma SomeAdvance(s: State) returns (t: nat)
    requires Inv(s) && exists u :: 0 <= u < |s.pcs| && !s.pcs[u].Idle?
    ensures t < |s.pcs| && !s.pcs[t].Idle? && !s.pcs[t].Asleep? && (s.pcs[t].Checking? ==> s.polling == 0)
  {
    t :| 0 <= t < |s.pcs| && !s.pcs[t].Idle?;
    if Waits(s.pcs[t]) {
      WaitEnds(s, t);
      if Distance(s) > 0 {
        t :| 0 <= t < |s.pcs| && (s.pcs[t].Polling? || s.pcs[t].Leaving?);
      }
    }
  }

  /** From every state all threads can leave, whatever section, wait or poll they are in; that
      changes no list, and nothing is left behind. */
  lemma {:induction false} CanFinish(s: State) returns (run: seq<Event>)
    requires Inv(s)
    ensures CanRun(s, run) && Init(Run(s, run)) && Run(s, run).list == s.list
    decreases Sum(s.pcs, ToDo)
  {
    SumNonNegative(s.pcs, ToDo);
    if u :| 0 <= u < |s.pcs| && !s.pcs[u].Idle? {
      var t := SomeAdvance(s);
      var a := Onward(s.pcs[t]);
      Advances(s, t);
      StepInv(s, t, a);
      SumNonNegative(Step(s, t, a).pcs, ToDo);
      var rest := CanFinish(Step(s, t, a));
      RunFirst(s, Event(t, a), rest);
      run := [Event(t, a)] + rest;
    } else {
      run := [];
      SumZero(s.pcs, InWindow);
    }
  }

  /** A change of the list that its thread has made can be completed, without waiting for any
      timeout, signal or other file: the thread ends with the new list, which every poller that is
      left has. */
  lemma ChangeCanComplete(s: State, t: nat, list: Snapshot) returns (run: seq<Event>)
    requires Inv(s) && t < |s.pcs| && s.pcs[t].Inside?
    ensures CanRun(s, run) && var r := Run(s, run);
            && |r.pcs| == |s.pcs| && r.pcs[t] == Inside && r.list == list && r.polling == 0
            && forall u :: 0 <= u < |s.pcs| ==> !HasSnapshot(r.pcs[u])
  {
    var e, f := Event(t, Change(list)), Event(t, Continue);
    var s1 := Step(s, t, e.action);
    StepInv(s, t, e.action);
    StepInv(s1, t, Continue);
    var s2 := Step(s1, t, Continue);
    run := [];
    if s1.polling != 0 {
      StepInv(s2, t, Continue);
      var s3 := Step(s2, t, Continue);
      run := WaitCanEnd(s3, t);
      RunFirst(s2, f, run);
      run := [f] + run;
    } else {
      ChangeReachesAll(s1, t);
    }
    RunFirst(s1, f, run);
    run := [f] + run;
    RunFirst(s, e, run);
    run := [e] + run;
  }

  /** A wait that has drained the kqueue polls on the current list, counted and with the mutex free,
      and only a change, or another reason to return, ends that. */
  lemma PollerStays(s: State, t: nat)
    requires Inv(s) && t < |s.pcs| && s.pcs[t].Inside?
    ensures var run := [Event(t, Drain), Event(t, TakeSnapshot), Event(t, Continue), Event(t, Continue)];
            CanRun(s, run) && var r := Run(s, run);
            && r == State(s.list, false, s.polling + 1, None, s.pcs[t := Polling(s.list)])
            && !Enabled(r, t, Continue)
  {
    var c := Event(t, Continue);
    var s1 := Step(s, t, Drain);
    var s2 := Step(s1, t, TakeSnapshot);
    var s3 := Step(s2, t, Continue);
    RunFirst(s3, c, []);
    RunFirst(s2, c, [c]);
    RunFirst(s1, Event(t, TakeSnapshot), [c] + [c]);
    RunFirst(s, Event(t, Drain), [Event(t, TakeSnapshot)] + ([c] + [c]));
    assert [Event(t, Drain), Event(t, TakeSnapshot), c, c] == [Event(t, Drain)] + ([Event(t, TakeSnapshot)] + ([c] + [c])) && [c] == [c] + [];
  }

  /** That the mutex is free matters: a list is changed under the eyes of a poller. */
  lemma ChangeLeavesOldSnapshots(list: Snapshot, changed: Snapshot)
    requires list != changed
    ensures var s := State(list, false, 0, None, [Idle, Idle]);
            var run := [Event(0, Continue), Event(0, TakeSnapshot), Event(0, Continue), Event(0, Continue),
                        Event(1, Continue), Event(1, Change(changed))];
            CanRun(s, run) && var r := Run(s, run); r.pcs == [Polling(list), Changed] && r.list == changed
  {
    var s := State(list, false, 0, None, [Idle, Idle]);
    var s1 := Step(s, 0, Continue);
    var s2 := Step(s1, 0, TakeSnapshot);
    var s3 := Step(s2, 0, Continue);
    var s4 := Step(s3, 0, Continue);
    var s5 := Step(s4, 1, Continue);
    var s6 := Step(s5, 1, Change(changed));
    var e1, e2, e3 := Event(0, TakeSnapshot), Event(0, Continue), Event(1, Continue);
    var e5 := Event(1, Change(changed));
    RunFirst(s5, e5, []);
    RunFirst(s4, e3, [e5]);
    RunFirst(s3, e2, [e3] + [e5]);
    RunFirst(s2, e2, [e2] + ([e3] + [e5]));
    RunFirst(s1, e1, [e2] + ([e2] + ([e3] + [e5])));
    RunFirst(s, e2, [e1] + ([e2] + ([e2] + ([e3] + [e5]))));
    assert [e2, e1, e2, e2, e3, e5] == [e2] + ([e1] + ([e2] + ([e2] + ([e3] + [e5])))) && [e5] == [e5] + [];
  }
}

/** The same, changed in place.  Each method is the code a thread runs up to and including its
    next shared operation. */
module Repoll {
  import opened Collections
  import opened RepollProtocol

  class Descriptor {
    var mutex: Option<nat>
    var pollFds: Snapshot
    var nrPollingThreads: int
    var userEvent: bool
    var pcs: seq<Pc>

    ghost function View(): State
      reads this
    {
      State(pollFds, userEvent, nrPollingThreads, mutex, pcs)
    }

    ghost predicate Valid()
      reads this
    {
      Inv(View())
    }

    constructor (threads: nat)
      ensures Valid() && Init(View()) && |pcs| == threads && pollFds == []
    {
      mutex, pollFds, nrPollingThreads, userEvent := None, [], 0, false;
      pcs := seq(threads, _ => Idle);
      new;
      InitInv(View());
    }

    method Lock(t: nat)
      requires Valid() && t < |pcs| && pcs[t].Idle? && mutex == None
      modifies this
      ensures Valid() && View() == Step(old(View()), t, Continue)
    {
      StepInv(View(), t, Continue);
      mutex := Some(t);
      pcs := pcs[t := Inside];
    }

    method Unlock(t: nat)
      requires Valid() && t < |pcs| && pcs[t].Inside?
      modifies this
      ensures Valid() && View() == Step(old(View()), t, Release)
    {
      StepInv(View(), t, Release);
      mutex := None;
      pcs := pcs[t := Idle];
    }

    /** The kevent call of a wait, which resets the user event. */
    method DrainKqueue(t: nat)
      requires Valid() && t < |pcs| && pcs[t].Inside?
      modifies this
      ensures Valid() && View() == Step(old(View()), t, Drain)
    {
      StepInv(View(), t, Drain);
      userEvent := false;
    }

    method ChangeList(t: nat, list: Snapshot)
      requires Valid() && t < |pcs| && pcs[t].Inside?
      modifies this
      ensures Valid() && View() == Step(old(View()), t, Change(list))
    {
      StepInv(View(), t, Change(list));
      pollFds := list;
      pcs := pcs[t := Changed];
    }

    /** `epollfd_ctx__trigger_repoll` starts. */
    method ReadCount(t: nat)
      requires Valid() && t < |pcs| && pcs[t].Changed?
      modifies this
      ensures Valid() && View() == Step(old(View()), t, Continue)
    {
      StepInv(View(), t, Continue);
      pcs := pcs[t := if nrPollingThreads == 0 then Inside else Posting];
    }

    method TriggerSelf(t: nat)
      requires Valid() && t < |pcs| && pcs[t].Posting?
      modifies this
      ensures Valid() && View() == Step(old(View()), t, Continue)
    {
      StepInv(View(), t, Continue);
      userEvent := true;
      pcs := pcs[t := Checking];
    }

    /** The loop's test, and the wait when it fails. */
    method TestCount(t: nat)
      requires Valid() && t < |pcs| && pcs[t].Checking?
      modifies this
      ensures Valid() && View() == Step(old(View()), t, Continue)
    {
      StepInv(View(), t, Continue);
      pcs := pcs[t := if nrPollingThreads != 0 then Asleep else Inside];
    }

    method WakeUp(t: nat)
      requires Valid() && t < |pcs| && pcs[t].Asleep?
      modifies this
      ensures Valid() && View() == Step(old(View()), t, Continue)
    {
      StepInv(View(), t, Continue);
      pcs := pcs[t := Checking];
    }

    method FillPollFds(t: nat)
      requires Valid() && t < |pcs| && pcs[t].Inside?
      modifies this
      ensures Valid() && View() == Step(old(View()), t, TakeSnapshot)
    {
      StepInv(View(), t, TakeSnapshot);
      pcs := pcs[t := Filled(pollFds)];
    }

    method CountIn(t: nat)
      requires Valid() && t < |pcs| && pcs[t].Filled?
      modifies this
      ensures Valid() && View() == Step(old(View()), t, Continue)
    {
      StepInv(View(), t, Continue);
      nrPollingThreads := nrPollingThreads + 1;
      pcs := pcs[t := Counted(pcs[t].snapshot)];
    }

    method UnlockToPoll(t: nat)
      requires Valid() && t < |pcs| && pcs[t].Counted?
      modifies this
      ensures Valid() && View() == Step(old(View()), t, Continue)
    {
      StepInv(View(), t, Continue);
      mutex := None;
      pcs := pcs[t := Polling(pcs[t].snapshot)];
    }

    /** ppoll returns, because the kqueue is readable or for another reason. */
    method ReturnFromPoll(t: nat, woken: bool)
      requires Valid() && t < |pcs| && pcs[t].Polling? && (woken ==> userEvent)
      modifies this
      ensures Valid() && View() == Step(old(View()), t, if woken then Continue else Return)
    {
      StepInv(View(), t, if woken then Continue else Return);
      pcs := pcs[t := Leaving];
    }

    /** Takes the thread off the count; the last one signals the condition variable. */
    method CountOut(t: nat)
      requires Valid() && t < |pcs| && pcs[t].Leaving?
      modifies this
      ensures Valid() && View() == Step(old(View()), t, Continue)
    {
      StepInv(View(), t, Continue);
      pcs := pcs[t := Idle];
      nrPollingThreads := nrPollingThreads - 1;
      if nrPollingThreads == 0 {
        pcs := Woken(pcs);
      }
    }
  }
}
