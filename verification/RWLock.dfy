/** The reader-writer lock: two atomic counters, two semaphores and a mutex, used by any
    number of threads.  Every atomic operation, semaphore operation and mutex operation
    is one step; a thread is an index into `pcs`. */
module RWLockProtocol {
  import opened Collections
  import opened Sums

  const MAX_READERS: int := 0x4000_0000

  /** Where a thread stands.  The comments name the operation it does next. */
  datatype Pc =
    | Idle
    | ReadWait                                  // sem_wait(reader_wait)
    | Reading                                   // holds the lock for reading
    | Departing                                 // fetch_sub(readers_departing, 1)
    | OwesWriter                                // sem_post(writer_wait)
    | MutexWait                                 // pthread_mutex_lock
    | Announce                                  // fetch_sub(num_pending, MAX_READERS)
    | CountReaders(r: int)                      // fetch_add(readers_departing, r)
    | WriteWait                                 // sem_wait(writer_wait)
    | Writing                                   // holds the lock for writing
    | Posting(i: int, r: int, keep: bool)       // sem_post(reader_wait) while i < r, then unlock

  datatype Action = LockRead | LockWrite | Release | Downgrade | Continue

  datatype State = State(
    numPending: int,
    departing: int,
    writerTokens: int,
    readerTokens: int,
    owner: Option<nat>,
    pcs: seq<Pc>)

  ghost predicate Init(s: State) {
    && s.numPending == 0 && s.departing == 0 && s.writerTokens == 0 && s.readerTokens == 0
    && s.owner == None
    && forall t :: 0 <= t < |s.pcs| ==> s.pcs[t] == Idle
  }

  /** Thread `t` can do `a` now; a wait on an empty semaphore or a held mutex blocks. */
  predicate Enabled(s: State, t: nat, a: Action)
    requires t < |s.pcs|
  {
    match s.pcs[t]
    case Idle => a == LockRead || a == LockWrite
    case Reading => a == Release
    case Writing => a == Release || a == Downgrade
    case ReadWait => a == Continue && s.readerTokens > 0
    case WriteWait => a == Continue && s.writerTokens > 0
    case MutexWait => a == Continue && s.owner == None
    case _ => a == Continue
  }

  function Step(s: State, t: nat, a: Action): State
    requires t < |s.pcs| && Enabled(s, t, a)
  {
    match s.pcs[t]
    case Idle =>
      if a == LockRead then
        var n := s.numPending + 1;
        s.(numPending := n, pcs := s.pcs[t := if n < 0 then ReadWait else Reading])
      else
        s.(pcs := s.pcs[t := MutexWait])
    case ReadWait =>
      s.(readerTokens := s.readerTokens - 1, pcs := s.pcs[t := Reading])
    case Reading =>
      var n := s.numPending - 1;
      s.(numPending := n, pcs := s.pcs[t := if n < 0 then Departing else Idle])
    case Departing =>
      var d := s.departing - 1;
      s.(departing := d, pcs := s.pcs[t := if d == 0 then OwesWriter else Idle])
    case OwesWriter =>
      s.(writerTokens := s.writerTokens + 1, pcs := s.pcs[t := Idle])
    case MutexWait =>
      s.(owner := Some(t), pcs := s.pcs[t := Announce])
    case Announce =>
      var r := s.numPending;
      s.(numPending := r - MAX_READERS, pcs := s.pcs[t := if r != 0 then CountReaders(r) else Writing])
    case CountReaders(r) =>
      var d := s.departing + r;
      s.(departing := d, pcs := s.pcs[t := if d != 0 then WriteWait else Writing])
    case WriteWait =>
      s.(writerTokens := s.writerTokens - 1, pcs := s.pcs[t := Writing])
    case Writing =>
      var keep := if a == Downgrade then 1 else 0;
      var r := s.numPending + MAX_READERS + keep;
      s.(numPending := r, pcs := s.pcs[t := Posting(keep, r, a == Downgrade)])
    case Posting(i, r, keep) =>
      if i < r then
        s.(readerTokens := s.readerTokens + 1, pcs := s.pcs[t := Posting(i + 1, r, keep)])
      else
        s.(owner := None, pcs := s.pcs[t := if keep then Reading else Idle])
  }

  // ---- the counts the invariant speaks of ----

  /** The thread holds the lock for reading; a downgraded writer does so from the moment
      its count is in `num_pending`, while it still posts the tokens of the others. */
  predicate HoldsRead(pc: Pc) { pc.Reading? || (pc.Posting? && pc.keep) }

  predicate HoldsMutex(pc: Pc) {
    pc.Announce? || pc.CountReaders? || pc.WriteWait? || pc.Writing? || pc.Posting?
  }

  function Active(pc: Pc): int { if HoldsRead(pc) then 1 else 0 }
  function Waiting(pc: Pc): int { if pc.ReadWait? then 1 else 0 }
  function Pending(pc: Pc): int { if HoldsRead(pc) || pc.ReadWait? then 1 else 0 }
  function Leaving(pc: Pc): int { if pc.Departing? then 1 else 0 }
  function Posts(pc: Pc): int { if pc.OwesWriter? then 1 else 0 }
  function Owed(pc: Pc): int { if pc.Posting? then pc.r - pc.i else 0 }

  /** A writer has subtracted MAX_READERS and not added it back. */
  predicate Announced(s: State) {
    s.owner.Some? && s.owner.value < |s.pcs| &&
    var pc := s.pcs[s.owner.value];
    pc.CountReaders? || pc.WriteWait? || pc.Writing?
  }

  ghost predicate Inv(s: State) {
    var active, waiting := Sum(s.pcs, Active), Sum(s.pcs, Waiting);
    var leaving, posts, owed := Sum(s.pcs, Leaving), Sum(s.pcs, Posts), Sum(s.pcs, Owed);
    && |s.pcs| < MAX_READERS
    && s.readerTokens >= 0 && s.writerTokens >= 0
    && (forall t :: 0 <= t < |s.pcs| ==> (HoldsMutex(s.pcs[t]) <==> s.owner == Some(t)))
    && (s.owner.Some? ==> s.owner.value < |s.pcs|)
    && (forall t :: 0 <= t < |s.pcs| && s.pcs[t].Posting? ==> 0 <= s.pcs[t].i <= s.pcs[t].r <= |s.pcs|)
    && (forall t :: 0 <= t < |s.pcs| && s.pcs[t].CountReaders? ==> 0 < s.pcs[t].r <= |s.pcs|)
    && s.numPending + (if Announced(s) then MAX_READERS else 0) == active + waiting
    && s.readerTokens <= waiting
    && (!Announced(s) ==>
          && waiting == s.readerTokens + owed
          && s.departing == 0 && leaving == 0 && s.writerTokens == 0 && posts == 0)
    && (Announced(s) ==>
          match s.pcs[s.owner.value]
          case CountReaders(r) =>
            && s.departing + r == active + s.readerTokens + leaving
            && s.departing <= 0 && s.writerTokens == 0 && posts == 0
          case WriteWait =>
            && s.departing == active + s.readerTokens + leaving
            && s.writerTokens + posts == if s.departing == 0 then 1 else 0
          case _ =>
            && active == s.readerTokens == leaving == s.departing == 0
            && s.writerTokens == 0 && posts == 0)
  }

  lemma Weights(s: State)
    requires forall t :: 0 <= t < |s.pcs| && s.pcs[t].Posting? ==> s.pcs[t].i <= s.pcs[t].r
    ensures Sum(s.pcs, Active) >= 0 && Sum(s.pcs, Waiting) >= 0
    ensures Sum(s.pcs, Leaving) >= 0 && Sum(s.pcs, Posts) >= 0 && Sum(s.pcs, Owed) >= 0
  {
    SumNonNegative(s.pcs, Active);
    SumNonNegative(s.pcs, Waiting);
    SumNonNegative(s.pcs, Leaving);
    SumNonNegative(s.pcs, Posts);
    SumNonNegative(s.pcs, Owed);
  }

  lemma Moves(pcs: seq<Pc>, t: nat, pc: Pc)
    requires t < |pcs|
    ensures Sum(pcs[t := pc], Active) == Sum(pcs, Active) - Active(pcs[t]) + Active(pc)
    ensures Sum(pcs[t := pc], Waiting) == Sum(pcs, Waiting) - Waiting(pcs[t]) + Waiting(pc)
    ensures Sum(pcs[t := pc], Leaving) == Sum(pcs, Leaving) - Leaving(pcs[t]) + Leaving(pc)
    ensures Sum(pcs[t := pc], Posts) == Sum(pcs, Posts) - Posts(pcs[t]) + Posts(pc)
    ensures Sum(pcs[t := pc], Owed) == Sum(pcs, Owed) - Owed(pcs[t]) + Owed(pc)
  {
    SumUpdate(pcs, t, pc, Active);
    SumUpdate(pcs, t, pc, Waiting);
    SumUpdate(pcs, t, pc, Leaving);
    SumUpdate(pcs, t, pc, Posts);
    SumUpdate(pcs, t, pc, Owed);
  }

  lemma InitInv(s: State)
    requires Init(s) && |s.pcs| < MAX_READERS
    ensures Inv(s)
  {
    SumZero(s.pcs, Active);
    SumZero(s.pcs, Waiting);
    SumZero(s.pcs, Leaving);
    SumZero(s.pcs, Posts);
    SumZero(s.pcs, Owed);
  }

  /** When no thread posts, nothing is owed. */
  lemma NothingOwed(s: State)
    requires Inv(s)
    requires s.owner.Some? ==> !s.pcs[s.owner.value].Posting?
    ensures Sum(s.pcs, Owed) == 0
  {
    forall t | 0 <= t < |s.pcs| ensures Owed(s.pcs[t]) == 0 {
      assert HoldsMutex(s.pcs[t]) <==> s.owner == Some(t);
    }
    SumZero(s.pcs, Owed);
  }

  /** While one thread posts, it alone owes tokens. */
  lemma OwedByPoster(s: State, t: nat)
    requires Inv(s) && t < |s.pcs| && s.pcs[t].Posting?
    ensures s.owner == Some(t)
    ensures Sum(s.pcs, Owed) == s.pcs[t].r - s.pcs[t].i
  {
    assert HoldsMutex(s.pcs[t]) <==> s.owner == Some(t);
    var rest := s.pcs[t := Idle];
    SumUpdate(s.pcs, t, Idle, Owed);
    forall u | 0 <= u < |rest| ensures Owed(rest[u]) == 0 {
      assert HoldsMutex(s.pcs[u]) <==> s.owner == Some(u);
    }
    SumZero(rest, Owed);
  }

  /** There are never more counted readers than threads. */
  lemma PendingBound(pcs: seq<Pc>)
    ensures Sum(pcs, Active) + Sum(pcs, Waiting) <= |pcs|
  {
    SumAdd(pcs, Active, Waiting, Pending);
    SumBound(pcs, Pending, 1);
  }

  /** A thread at t accounts for itself in every count. */
  lemma OwnShare(s: State, t: nat)
    requires Inv(s) && t < |s.pcs|
    ensures Sum(s.pcs, Active) >= Active(s.pcs[t]) && Sum(s.pcs, Waiting) >= Waiting(s.pcs[t])
    ensures Sum(s.pcs, Leaving) >= Leaving(s.pcs[t]) && Sum(s.pcs, Posts) >= Posts(s.pcs[t])
  {
    SumTerm(s.pcs, t, Active);
    SumTerm(s.pcs, t, Waiting);
    SumTerm(s.pcs, t, Leaving);
    SumTerm(s.pcs, t, Posts);
  }

  /** A step of a thread without the mutex leaves the announcing writer where it is. */
  lemma OthersStand(s: State, t: nat, a: Action)
    requires Inv(s) && t < |s.pcs| && Enabled(s, t, a) && !HoldsMutex(s.pcs[t]) && !s.pcs[t].MutexWait?
    ensures var s' := Step(s, t, a);
            && s'.owner == s.owner && s.owner != Some(t) && Announced(s') == Announced(s)
            && (s.owner.Some? ==> s'.pcs[s.owner.value] == s.pcs[s.owner.value])
            && forall u :: 0 <= u < |s'.pcs| ==> HoldsMutex(s'.pcs[u]) == HoldsMutex(s.pcs[u])
  {
    assert HoldsMutex(s.pcs[t]) <==> s.owner == Some(t);
  }

  lemma EntryStepInv(s: State, t: nat, a: Action)
    requires Inv(s) && t < |s.pcs| && Enabled(s, t, a) && s.pcs[t].Idle?
    ensures Inv(Step(s, t, a))
  {
    var s' := Step(s, t, a);
    Moves(s.pcs, t, s'.pcs[t]);
    Weights(s);
    PendingBound(s'.pcs);
    OwnShare(s, t);
    OthersStand(s, t, a);
  }

  lemma WakeStepInv(s: State, t: nat, a: Action)
    requires Inv(s) && t < |s.pcs| && Enabled(s, t, a) && s.pcs[t].ReadWait?
    ensures Inv(Step(s, t, a))
  {
    var s' := Step(s, t, a);
    Moves(s.pcs, t, s'.pcs[t]);
    Weights(s);
    PendingBound(s'.pcs);
    OwnShare(s, t);
    OthersStand(s, t, a);
  }

  lemma ExitStepInv(s: State, t: nat, a: Action)
    requires Inv(s) && t < |s.pcs| && Enabled(s, t, a) && s.pcs[t].Reading?
    ensures Inv(Step(s, t, a))
  {
    var s' := Step(s, t, a);
    Moves(s.pcs, t, s'.pcs[t]);
    Weights(s);
    PendingBound(s'.pcs);
    OwnShare(s, t);
    OthersStand(s, t, a);
  }

  lemma DepartStepInv(s: State, t: nat, a: Action)
    requires Inv(s) && t < |s.pcs| && Enabled(s, t, a) && (s.pcs[t].Departing? || s.pcs[t].OwesWriter?)
    ensures Inv(Step(s, t, a))
  {
    var s' := Step(s, t, a);
    Moves(s.pcs, t, s'.pcs[t]);
    Weights(s);
    PendingBound(s'.pcs);
    OwnShare(s, t);
    OthersStand(s, t, a);
  }

  lemma AnnounceStepInv(s: State, t: nat, a: Action)
    requires Inv(s) && t < |s.pcs| && Enabled(s, t, a)
    requires s.pcs[t].MutexWait? || s.pcs[t].Announce?
    ensures Inv(Step(s, t, a))
  {
    var s' := Step(s, t, a);
    Moves(s.pcs, t, s'.pcs[t]);
    Weights(s);
    PendingBound(s.pcs);
    assert HoldsMutex(s.pcs[t]) <==> s.owner == Some(t);
    NothingOwed(s);
  }

  lemma WriterStepInv(s: State, t: nat, a: Action)
    requires Inv(s) && t < |s.pcs| && Enabled(s, t, a)
    requires s.pcs[t].CountReaders? || s.pcs[t].WriteWait? || s.pcs[t].Writing?
    ensures Inv(Step(s, t, a))
  {
    var s' := Step(s, t, a);
    Moves(s.pcs, t, s'.pcs[t]);
    Weights(s);
    PendingBound(s.pcs);
    PendingBound(s'.pcs);
    assert HoldsMutex(s.pcs[t]) <==> s.owner == Some(t);
    NothingOwed(s);
  }

  lemma PosterStepInv(s: State, t: nat, a: Action)
    requires Inv(s) && t < |s.pcs| && Enabled(s, t, a) && s.pcs[t].Posting?
    ensures Inv(Step(s, t, a))
  {
    var s' := Step(s, t, a);
    Moves(s.pcs, t, s'.pcs[t]);
    Weights(s);
    OwedByPoster(s, t);
  }

  /** Every step of every thread keeps the invariant. */
  lemma StepInv(s: State, t: nat, a: Action)
    requires Inv(s) && t < |s.pcs| && Enabled(s, t, a)
    ensures Inv(Step(s, t, a))
  {
    if s.pcs[t].Posting? {
      PosterStepInv(s, t, a);
    } else if s.pcs[t].MutexWait? || s.pcs[t].Announce? {
      AnnounceStepInv(s, t, a);
    } else if HoldsMutex(s.pcs[t]) {
      WriterStepInv(s, t, a);
    } else {
      match s.pcs[t] {
        case Idle => EntryStepInv(s, t, a);
        case ReadWait => WakeStepInv(s, t, a);
        case Reading => ExitStepInv(s, t, a);
        case _ => DepartStepInv(s, t, a);
      }
    }
  }

  // ---- runs ----

  ghost predicate Next(s: State, s': State) {
    exists t: nat, a: Action :: t < |s.pcs| && Enabled(s, t, a) && s' == Step(s, t, a)
  }

  /** A run of fewer than MAX_READERS threads, any number of steps, any interleaving. */
  ghost predicate Run(run: seq<State>) {
    && run != [] && Init(run[0]) && |run[0].pcs| < MAX_READERS
    && forall i :: 0 <= i < |run| - 1 ==> Next(run[i], run[i + 1])
  }

  lemma {:induction false} RunInv(run: seq<State>, n: nat)
    requires Run(run) && n < |run|
    ensures Inv(run[n])
  {
    if n == 0 {
      InitInv(run[0]);
    } else {
      RunInv(run, n - 1);
      assert Next(run[n - 1], run[n - 1 + 1]);
      var t: nat, a: Action :| t < |run[n - 1].pcs| && Enabled(run[n - 1], t, a) && run[n] == Step(run[n - 1], t, a);
      StepInv(run[n - 1], t, a);
    }
  }

  /** Exclusion: a write holder excludes every other writer and every reader. */
  lemma Exclusion(run: seq<State>, n: nat, t: nat, u: nat)
    requires Run(run) && n < |run| && t < |run[n].pcs| && u < |run[n].pcs| && t != u
    requires run[n].pcs[t].Writing?
    ensures !run[n].pcs[u].Writing? && !HoldsRead(run[n].pcs[u])
  {
    RunInv(run, n);
    var s := run[n];
    assert HoldsMutex(s.pcs[t]) <==> s.owner == Some(t);
    assert HoldsMutex(s.pcs[u]) <==> s.owner == Some(u);
    SumTerm(s.pcs, u, Active);
  }

  /** The counting invariant behind exclusion: once a writer has added its count,
      `readers_departing` is the number of readers it still has to wait for: those that
      hold the lock, those whose token nobody took yet, and those on their way out. */
  lemma DepartingCounts(run: seq<State>, n: nat, t: nat)
    requires Run(run) && n < |run| && t < |run[n].pcs|
    requires run[n].pcs[t].WriteWait? || run[n].pcs[t].Writing?
    ensures run[n].departing
         == Sum(run[n].pcs, Active) + run[n].readerTokens + Sum(run[n].pcs, Leaving)
  {
    RunInv(run, n);
    assert HoldsMutex(run[n].pcs[t]) <==> run[n].owner == Some(t);
  }

  /** A downgrade leaves its caller holding the lock for reading, and nobody else. */
  lemma DowngradeReads(run: seq<State>, n: nat, t: nat)
    requires Run(run) && n < |run| && t < |run[n].pcs| && run[n].pcs[t].Writing?
    ensures var s := Step(run[n], t, Downgrade);
            && HoldsRead(s.pcs[t]) && Sum(s.pcs, Active) == 1 && s.owner == Some(t)
            && forall u :: 0 <= u < |s.pcs| && u != t ==> !HoldsRead(s.pcs[u]) && !s.pcs[u].Writing?
  {
    RunInv(run, n);
    var s := run[n];
    var s' := Step(s, t, Downgrade);
    assert HoldsMutex(s.pcs[t]) <==> s.owner == Some(t);
    Moves(s.pcs, t, s'.pcs[t]);
    forall u | 0 <= u < |s'.pcs| && u != t ensures !HoldsRead(s'.pcs[u]) && !s'.pcs[u].Writing? {
      Exclusion(run, n, t, u);
    }
  }

  /** The threads that wait for a token to read. */
  ghost function Waiters(pcs: seq<Pc>): set<int> { set t | 0 <= t < |pcs| && pcs[t].ReadWait? }

  lemma WaitersCounted(pcs: seq<Pc>)
    ensures Sum(pcs, Waiting) == |Waiters(pcs)|
  {
    SumCounts(pcs, Waiting, Waiters(pcs));
  }

  /** A write holder that releases the lock gives it up: nobody holds it, `num_pending` is the
      number of readers that wait, none of them has a token yet, and each of them is owed one. */
  lemma ReleaseGivesUp(run: seq<State>, n: nat, t: nat)
    requires Run(run) && n < |run| && t < |run[n].pcs| && run[n].pcs[t].Writing?
    ensures var s := Step(run[n], t, Release);
            && (forall u :: 0 <= u < |s.pcs| ==> !HoldsRead(s.pcs[u]) && !s.pcs[u].Writing?)
            && Waiters(s.pcs) == Waiters(run[n].pcs) && s.numPending == |Waiters(s.pcs)|
            && s.readerTokens == 0 && Owed(s.pcs[t]) == |Waiters(s.pcs)|
  {
    RunInv(run, n);
    ReleaseInv(run[n], t);
    var s := Step(run[n], t, Release);
    forall u | 0 <= u < |s.pcs| && u != t ensures !HoldsRead(s.pcs[u]) && !s.pcs[u].Writing? {
      Exclusion(run, n, t, u);
    }
  }

  lemma ReleaseInv(s: State, t: nat)
    requires Inv(s) && t < |s.pcs| && s.pcs[t].Writing?
    ensures s.owner == Some(t) && s.readerTokens == 0 && s.numPending + MAX_READERS == |Waiters(s.pcs)|
    ensures Waiters(Step(s, t, Release).pcs) == Waiters(s.pcs) == Waiters(Step(s, t, Downgrade).pcs)
  {
    assert HoldsMutex(s.pcs[t]) <==> s.owner == Some(t);
    WaitersCounted(s.pcs);
  }

  /** A reader that releases the lock gives it up, and stays only to count itself out for a writer
      that has announced itself. */
  lemma ReadReleaseGivesUp(s: State, t: nat)
    requires Inv(s) && t < |s.pcs| && s.pcs[t].Reading?
    ensures var s' := Step(s, t, Release);
            && s'.numPending == s.numPending - 1 && s'.pcs[t] == if Announced(s) then Departing else Idle
  {
    Weights(s);
    PendingBound(s.pcs);
    OwnShare(s, t);
  }

  /** A reader gets the lock at once unless a writer has announced itself. */
  lemma ReadEnters(s: State, t: nat)
    requires Inv(s) && t < |s.pcs| && s.pcs[t].Idle?
    ensures Step(s, t, LockRead).pcs[t] == if Announced(s) then ReadWait else Reading
  {
    Weights(s);
    PendingBound(s.pcs);
    SumUpdate(s.pcs, t, ReadWait, Waiting);
    SumUpdate(s.pcs, t, ReadWait, Active);
    PendingBound(s.pcs[t := ReadWait]);
  }

  // ---- every operation comes to its end ----

  /** How many steps a thread still has to do by itself, until it is out and idle: a bound, for
      `n` threads. */
  function ToDo(pc: Pc, n: nat): int {
    match pc
    case Idle => 0
    case OwesWriter => 1
    case Departing => 2
    case Reading => 3
    case ReadWait => 4
    case Posting(i, r, keep) => 5 + r - i
    case Writing => 7 + n
    case WriteWait => 8 + n
    case CountReaders(_) => 9 + n
    case Announce => 10 + n
    case MutexWait => 11 + n
  }

  /** What the code that a thread runs ends in. */
  predicate Bound(pc: Pc, goal: Pc) {
    match pc
    case ReadWait => goal == Reading
    case MutexWait => goal == Writing
    case Announce => goal == Writing
    case CountReaders(_) => goal == Writing
    case WriteWait => goal == Writing
    case Departing => goal == Idle
    case OwesWriter => goal == Idle
    case Posting(_, _, keep) => goal == if keep then Reading else Idle
    case _ => goal == pc
  }

  /** No step is in vain, and none touches another thread: a lock operation is bound for holding
      the lock, a release for being idle, a downgrade for reading, and every further step of the
      code brings the thread nearer to that. */
  lemma StepLeads(s: State, t: nat, a: Action)
    requires Inv(s) && t < |s.pcs| && Enabled(s, t, a)
    ensures var s' := Step(s, t, a);
            && |s'.pcs| == |s.pcs| && (forall u :: 0 <= u < |s.pcs| && u != t ==> s'.pcs[u] == s.pcs[u])
            && (a == LockRead ==> Bound(s'.pcs[t], Reading))
            && (a == LockWrite ==> Bound(s'.pcs[t], Writing))
            && (a == Release ==> Bound(s'.pcs[t], Idle))
            && (a == Downgrade ==> Bound(s'.pcs[t], Reading))
            && (a == Continue ==> forall goal :: Bound(s.pcs[t], goal) ==> Bound(s'.pcs[t], goal))
            && (a == Continue || a == Release ==> ToDo(s'.pcs[t], |s.pcs|) < ToDo(s.pcs[t], |s.pcs|))
  {
    StepInv(s, t, a);
  }

  function AllToDo(pcs: seq<Pc>, n: nat): int {
    if pcs == [] then 0 else ToDo(pcs[0], n) + AllToDo(pcs[1..], n)
  }

  lemma {:induction false} AllToDoUpdate(pcs: seq<Pc>, n: nat, t: nat, pc: Pc)
    requires t < |pcs|
    ensures AllToDo(pcs[t := pc], n) == AllToDo(pcs, n) - ToDo(pcs[t], n) + ToDo(pc, n)
  {
    if t == 0 {
      assert pcs[t := pc][1..] == pcs[1..];
    } else {
      assert pcs[t := pc][1..] == pcs[1..][t - 1 := pc];
      AllToDoUpdate(pcs[1..], n, t - 1, pc);
    }
  }

  lemma {:induction false} AllToDoBound(pcs: seq<Pc>, n: nat)
    requires forall t :: 0 <= t < |pcs| && pcs[t].Posting? ==> pcs[t].i <= pcs[t].r
    ensures AllToDo(pcs, n) >= 0
  {
    if pcs != [] {
      AllToDoBound(pcs[1..], n);
    }
  }

  lemma OneCloser(s: State, t: nat, a: Action)
    requires Inv(s) && t < |s.pcs| && !s.pcs[t].Idle? && Enabled(s, t, a) && (a == Continue || a == Release)
    ensures var s' := Step(s, t, a); 0 <= AllToDo(s'.pcs, |s.pcs|) < AllToDo(s.pcs, |s.pcs|)
  {
    var s' := Step(s, t, a);
    StepLeads(s, t, a);
    assert s'.pcs == s.pcs[t := s'.pcs[t]];
    AllToDoUpdate(s.pcs, |s.pcs|, t, s'.pcs[t]);
    StepInv(s, t, a);
    AllToDoBound(s'.pcs, |s.pcs|);
  }

  /** Once nobody asks for the lock any more, and holders release it, all threads get out: there is
      such a continuation of every run, of at most as many steps as there are to do, and it ends
      with the lock as it was at first. */
  lemma {:induction false} CanDrain(run: seq<State>) returns (more: seq<State>)
    requires Run(run)
    ensures Run(run + more) && |more| <= AllToDo(run[|run| - 1].pcs, |run[0].pcs|)
    ensures Init((run + more)[|run| + |more| - 1])
    decreases AllToDo(run[|run| - 1].pcs, |run[0].pcs|)
  {
    var s := run[|run| - 1];
    RunInv(run, |run| - 1);
    SameThreads(run, |run| - 1);
    AllToDoBound(s.pcs, |s.pcs|);
    if t :| 0 <= t < |s.pcs| && !s.pcs[t].Idle? {
      var u, a := NoDeadlock(run, |run| - 1, t);
      var s' := Step(s, u, a);
      OneCloser(s, u, a);
      Longer(run, u, a);
      var rest := CanDrain(run + [s']);
      more := [s'] + rest;
      assert run + [s'] + rest == run + more;
    } else {
      more := [];
      assert run + more == run;
      QuiescentIsInitial(run, |run| - 1);
    }
  }

  lemma {:induction false} SameThreads(run: seq<State>, n: nat)
    requires Run(run) && n < |run|
    ensures |run[n].pcs| == |run[0].pcs|
  {
    if n > 0 {
      SameThreads(run, n - 1);
      assert Next(run[n - 1], run[n - 1 + 1]);
    }
  }

  lemma Longer(run: seq<State>, t: nat, a: Action)
    requires Run(run) && t < |run[|run| - 1].pcs| && Enabled(run[|run| - 1], t, a)
    ensures Run(run + [Step(run[|run| - 1], t, a)])
  {
    var s := run[|run| - 1];
    var g := run + [Step(s, t, a)];
    forall i | 0 <= i < |g| - 1 ensures Next(g[i], g[i + 1]) {
      assert i < |run| - 1 ==> Next(run[i], run[i + 1]);
    }
  }

  /** No wakeup is lost on the writer's side: a writer that waits without a token has
      somebody whose progress leads to the one post it waits for.  There is never more
      than one writer token. */
  lemma WriterWakeup(run: seq<State>, n: nat)
    requires Run(run) && n < |run|
    ensures 0 <= run[n].writerTokens <= 1
    ensures forall t :: 0 <= t < |run[n].pcs| && run[n].pcs[t].WriteWait? && run[n].writerTokens == 0 ==>
              || run[n].readerTokens > 0
              || exists u :: 0 <= u < |run[n].pcs| &&
                   (HoldsRead(run[n].pcs[u]) || run[n].pcs[u].Departing? || run[n].pcs[u].OwesWriter?)
  {
    RunInv(run, n);
    var s := run[n];
    Weights(s);
    forall t | 0 <= t < |s.pcs| && s.pcs[t].WriteWait? && s.writerTokens == 0 && s.readerTokens == 0
      ensures exists u :: 0 <= u < |s.pcs| &&
                (HoldsRead(s.pcs[u]) || s.pcs[u].Departing? || s.pcs[u].OwesWriter?)
    {
      assert HoldsMutex(s.pcs[t]) <==> s.owner == Some(t);
      if Sum(s.pcs, Posts) > 0 {
        var u := SumWitness(s.pcs, Posts);
      } else if Sum(s.pcs, Leaving) > 0 {
        var u := SumWitness(s.pcs, Leaving);
      } else {
        var u := SumWitness(s.pcs, Active);
      }
    }
  }

  /** No wakeup is lost on the readers' side: as long as a reader waits, a token is there
      for the taking, an unlocker still has tokens to post, or a writer has announced
      itself (and will post when it unlocks). */
  lemma ReaderWakeup(run: seq<State>, n: nat, t: nat)
    requires Run(run) && n < |run| && t < |run[n].pcs| && run[n].pcs[t].ReadWait?
    ensures || run[n].readerTokens > 0 || Announced(run[n])
            || exists u :: 0 <= u < |run[n].pcs| && run[n].pcs[u].Posting? && run[n].pcs[u].i < run[n].pcs[u].r
  {
    RunInv(run, n);
    var s := run[n];
    SumTerm(s.pcs, t, Waiting);
    if s.readerTokens == 0 && !Announced(s) {
      var u := SumWitness(s.pcs, Owed);
    }
  }

  /** Tokens are never in surplus: every reader token has a reader waiting for it. */
  lemma TokensHaveTakers(run: seq<State>, n: nat)
    requires Run(run) && n < |run|
    ensures 0 <= run[n].readerTokens <= Sum(run[n].pcs, Waiting)
  {
    RunInv(run, n);
  }

  /** No deadlock: whenever some thread is inside the lock's code or holds the lock, some
      such thread has an enabled step. */
  lemma NoDeadlock(run: seq<State>, n: nat, t: nat) returns (u: nat, a: Action)
    requires Run(run) && n < |run| && t < |run[n].pcs| && !run[n].pcs[t].Idle?
    ensures u < |run[n].pcs| && !run[n].pcs[u].Idle? && Enabled(run[n], u, a) && (a == Continue || a == Release)
  {
    RunInv(run, n);
    var s := run[n];
    a := Continue;
    if s.owner.Some? {
      u := s.owner.value;
      assert HoldsMutex(s.pcs[u]) <==> s.owner == Some(u);
      if s.pcs[u].Writing? {
        a := Release;
      } else if s.pcs[u].WriteWait? && s.writerTokens == 0 {
        WriterWakeup(run, n);
        if s.readerTokens > 0 {
          u := SumWitness(s.pcs, Waiting);
        } else {
          u :| 0 <= u < |s.pcs| && (HoldsRead(s.pcs[u]) || s.pcs[u].Departing? || s.pcs[u].OwesWriter?);
          a := if s.pcs[u].Reading? then Release else Continue;
        }
      }
    } else {
      u := t;
      assert !HoldsMutex(s.pcs[t]) by {
        assert HoldsMutex(s.pcs[t]) <==> s.owner == Some(t);
      }
      a := if s.pcs[t].Reading? then Release else Continue;
      if s.pcs[t].ReadWait? {
        NothingOwed(s);
        SumTerm(s.pcs, t, Waiting);
      }
    }
  }

  /** Readers that arrive late cannot hold up a waiting writer: while it waits, the number
      of readers it waits for never grows, whatever step any other thread takes. */
  lemma WriterNotOvertaken(run: seq<State>, n: nat, w: nat, t: nat, a: Action)
    requires Run(run) && n < |run| && w < |run[n].pcs| && run[n].pcs[w].WriteWait?
    requires t < |run[n].pcs| && t != w && Enabled(run[n], t, a)
    ensures var s, s' := run[n], Step(run[n], t, a);
            && s'.pcs[w].WriteWait?
            && Sum(s'.pcs, Active) + s'.readerTokens + Sum(s'.pcs, Leaving)
               <= Sum(s.pcs, Active) + s.readerTokens + Sum(s.pcs, Leaving)
  {
    RunInv(run, n);
    var s, s' := run[n], Step(run[n], t, a);
    StepInv(s, t, a);
    assert HoldsMutex(s.pcs[w]) <==> s.owner == Some(w);
    assert HoldsMutex(s.pcs[t]) <==> s.owner == Some(t);
    assert s'.owner == s.owner;
    assert s'.departing <= s.departing;
  }

  /** Conservation: when every thread is out again, the lock is back in its initial state. */
  lemma QuiescentIsInitial(run: seq<State>, n: nat)
    requires Run(run) && n < |run| && forall t :: 0 <= t < |run[n].pcs| ==> run[n].pcs[t] == Idle
    ensures Init(run[n])
  {
    RunInv(run, n);
    var s := run[n];
    SumZero(s.pcs, Active);
    SumZero(s.pcs, Waiting);
    assert s.owner.None? by {
      assert forall t :: 0 <= t < |s.pcs| ==> (HoldsMutex(s.pcs[t]) <==> s.owner == Some(t));
    }
  }

  /** Both counters stay within 32 bits, so no atomic operation wraps. */
  lemma CountersFit(run: seq<State>, n: nat)
    requires Run(run) && n < |run|
    ensures -MAX_READERS <= run[n].numPending < MAX_READERS
    ensures -MAX_READERS < run[n].departing < 2 * MAX_READERS
  {
    RunInv(run, n);
    CountersFitInv(run[n]);
  }

  lemma CountersFitInv(s: State)
    requires Inv(s)
    ensures -MAX_READERS <= s.numPending < MAX_READERS
    ensures -MAX_READERS < s.departing < 2 * MAX_READERS
    ensures forall t :: 0 <= t < |s.pcs| && s.pcs[t].CountReaders? ==> 0 < s.pcs[t].r < MAX_READERS
    ensures forall t :: 0 <= t < |s.pcs| && s.pcs[t].Posting? ==> 0 <= s.pcs[t].i <= s.pcs[t].r < MAX_READERS
  {
    Weights(s);
    PendingBound(s.pcs);
    SumBound(s.pcs, Leaving, 1);
  }
}

/** The lock itself, changed in place.  Each method is the code a thread runs up to and
    including one atomic operation; all counters are 32-bit, and no operation wraps. */
module RWLock {
  import opened Collections
  import opened RWLockProtocol

  newtype Int32 = x: int | -0x8000_0000 <= x < 0x8000_0000

  class Lock {
    var mutex: Option<nat>
    var writerWait: nat
    var readerWait: nat
    var numPending: Int32
    var readersDeparting: Int32
    var pcs: seq<Pc>

    ghost function View(): State
      reads this
    {
      State(numPending as int, readersDeparting as int, writerWait, readerWait, mutex, pcs)
    }

    ghost predicate Valid()
      reads this
    {
      Inv(View())
    }

    constructor (threads: nat)
      requires threads < MAX_READERS
      ensures Valid() && Init(View()) && |pcs| == threads
    {
      mutex, writerWait, readerWait := None, 0, 0;
      numPending, readersDeparting := 0, 0;
      pcs := seq(threads, _ => Idle);
      new;
      InitInv(View());
    }

    method LockRead(t: nat)
      requires Valid() && t < |pcs| && pcs[t].Idle?
      modifies this
      ensures Valid() && View() == Step(old(View()), t, Action.LockRead)
      ensures pcs[t] == if old(Announced(View())) then ReadWait else Reading
    {
      ReadEnters(View(), t);
      StepInv(View(), t, Action.LockRead);
      CountersFitInv(View());
      numPending := numPending + 1;
      pcs := pcs[t := if numPending < 0 then ReadWait else Reading];
    }

    method ReaderWakes(t: nat)
      requires Valid() && t < |pcs| && pcs[t].ReadWait? && readerWait > 0
      modifies this
      ensures Valid() && View() == Step(old(View()), t, Continue)
    {
      StepInv(View(), t, Continue);
      readerWait := readerWait - 1;
      pcs := pcs[t := Reading];
    }

    method UnlockRead(t: nat)
      requires Valid() && t < |pcs| && pcs[t].Reading?
      modifies this
      ensures Valid() && View() == Step(old(View()), t, Release)
    {
      StepInv(View(), t, Release);
      CountersFitInv(Step(View(), t, Release));
      numPending := numPending - 1;
      pcs := pcs[t := if numPending < 0 then Departing else Idle];
    }

    method Depart(t: nat)
      requires Valid() && t < |pcs| && pcs[t].Departing?
      modifies this
      ensures Valid() && View() == Step(old(View()), t, Continue)
    {
      StepInv(View(), t, Continue);
      CountersFitInv(Step(View(), t, Continue));
      readersDeparting := readersDeparting - 1;
      pcs := pcs[t := if readersDeparting == 0 then OwesWriter else Idle];
    }

    method PostWriter(t: nat)
      requires Valid() && t < |pcs| && pcs[t].OwesWriter?
      modifies this
      ensures Valid() && View() == Step(old(View()), t, Continue)
    {
      StepInv(View(), t, Continue);
      writerWait := writerWait + 1;
      pcs := pcs[t := Idle];
    }

    method LockWrite(t: nat)
      requires Valid() && t < |pcs| && pcs[t].Idle?
      modifies this
      ensures Valid() && View() == Step(old(View()), t, Action.LockWrite)
    {
      StepInv(View(), t, Action.LockWrite);
      pcs := pcs[t := MutexWait];
    }

    method LockMutex(t: nat)
      requires Valid() && t < |pcs| && pcs[t].MutexWait? && mutex == None
      modifies this
      ensures Valid() && View() == Step(old(View()), t, Continue)
    {
      StepInv(View(), t, Continue);
      mutex := Some(t);
      pcs := pcs[t := Announce];
    }

    method AnnounceWriter(t: nat)
      requires Valid() && t < |pcs| && pcs[t].Announce?
      modifies this
      ensures Valid() && View() == Step(old(View()), t, Continue)
    {
      StepInv(View(), t, Continue);
      CountersFitInv(Step(View(), t, Continue));
      var r := numPending;
      numPending := r - 0x4000_0000;
      pcs := pcs[t := if r != 0 then Pc.CountReaders(r as int) else Writing];
    }

    method CountReaders(t: nat)
      requires Valid() && t < |pcs| && pcs[t].CountReaders?
      modifies this
      ensures Valid() && View() == Step(old(View()), t, Continue)
    {
      StepInv(View(), t, Continue);
      CountersFitInv(View());
      CountersFitInv(Step(View(), t, Continue));
      readersDeparting := readersDeparting + pcs[t].r as Int32;
      pcs := pcs[t := if readersDeparting != 0 then WriteWait else Writing];
    }

    method WriterWakes(t: nat)
      requires Valid() && t < |pcs| && pcs[t].WriteWait? && writerWait > 0
      modifies this
      ensures Valid() && View() == Step(old(View()), t, Continue)
    {
      StepInv(View(), t, Continue);
      writerWait := writerWait - 1;
      pcs := pcs[t := Writing];
    }

    /** The atomic add of `rwlock_unlock_common`; `keepReading` distinguishes a downgrade. */
    method AddBack(t: nat, keepReading: bool)
      requires Valid() && t < |pcs| && pcs[t].Writing?
      modifies this
      ensures Valid() && View() == Step(old(View()), t, if keepReading then Downgrade else Release)
    {
      StepInv(View(), t, if keepReading then Downgrade else Release);
      CountersFitInv(View());
      var keep: Int32 := if keepReading then 1 else 0;
      var r := numPending + (0x4000_0000 + keep);
      numPending := r;
      pcs := pcs[t := Posting(keep as int, r as int, keepReading)];
    }

    /** The rest of `rwlock_unlock_common` run without interruption: the loop posts one
        token to every reader that waited when the count was added back, then the mutex
        is released. */
    method PostReadersAndUnlock(t: nat)
      requires Valid() && t < |pcs| && pcs[t].Posting?
      modifies this
      ensures Valid() && mutex == None
      ensures pcs == old(pcs)[t := if old(pcs[t].keep) then Reading else Idle]
      ensures readerWait == old(readerWait) + (old(pcs[t].r) - old(pcs[t].i))
      ensures numPending == old(numPending) && readersDeparting == old(readersDeparting)
      ensures writerWait == old(writerWait)
    {
      assert pcs[t].i <= pcs[t].r;
      while pcs[t].i < pcs[t].r
        invariant Valid() && |pcs| == |old(pcs)| && pcs[t].Posting?
        invariant pcs == old(pcs)[t := old(pcs[t]).(i := pcs[t].i)]
        invariant old(pcs[t].i) <= pcs[t].i <= pcs[t].r
        invariant readerWait == old(readerWait) + (pcs[t].i - old(pcs[t].i))
        invariant numPending == old(numPending) && readersDeparting == old(readersDeparting)
        invariant writerWait == old(writerWait) && mutex == old(mutex)
        decreases pcs[t].r - pcs[t].i
      {
        PostReader(t);
      }
      UnlockMutex(t);
    }

    /** `rwlock_unlock_write`, run without interruption: the caller is out, the mutex is free,
        nobody holds the lock, and the readers that wait, and only they, are counted and have
        each a token. */
    method UnlockWrite(t: nat)
      requires Valid() && t < |pcs| && pcs[t].Writing?
      modifies this
      ensures Valid() && mutex == None && pcs == old(pcs)[t := Idle]
      ensures numPending as int == readerWait == |Waiters(pcs)| && Waiters(pcs) == Waiters(old(pcs))
      ensures readersDeparting == 0 && writerWait == 0
    {
      ghost var s := View();
      ReleaseInv(s, t);
      AddBack(t, false);
      assert View() == Step(s, t, Release);
      PostReadersAndUnlock(t);
      assert Waiters(pcs) == Waiters(s.pcs);
    }

    /** `rwlock_downgrade`: the same, but the caller is a reader now, and counted as such. */
    method DowngradeWrite(t: nat)
      requires Valid() && t < |pcs| && pcs[t].Writing?
      modifies this
      ensures Valid() && mutex == None && pcs == old(pcs)[t := Reading]
      ensures numPending as int == |Waiters(pcs)| + 1 && readerWait == |Waiters(pcs)| && Waiters(pcs) == Waiters(old(pcs))
      ensures readersDeparting == 0 && writerWait == 0
    {
      ghost var s := View();
      ReleaseInv(s, t);
      AddBack(t, true);
      assert View() == Step(s, t, Downgrade);
      PostReadersAndUnlock(t);
      assert Waiters(pcs) == Waiters(s.pcs);
    }

    /** `rwlock_unlock_read`, run without interruption: the caller is out; a writer that waits gets
        its token from the last reader that it waits for. */
    method UnlockReadWhole(t: nat)
      requires Valid() && t < |pcs| && pcs[t].Reading?
      modifies this
      ensures Valid() && pcs == old(pcs)[t := Idle] && mutex == old(mutex) && readerWait == old(readerWait)
      ensures numPending as int == old(numPending) as int - 1
      ensures readersDeparting as int == old(readersDeparting) as int - if old(Announced(View())) then 1 else 0
      ensures writerWait == if old(Announced(View())) && readersDeparting == 0 then old(writerWait) + 1 else old(writerWait)
    {
      ReadReleaseGivesUp(View(), t);
      UnlockRead(t);
      if pcs[t].Departing? {
        Depart(t);
        if pcs[t].OwesWriter? {
          PostWriter(t);
        }
      }
    }

    /** `rwlock_lock_write` on a lock that is free. */
    method LockWriteFree(t: nat)
      requires Valid() && t < |pcs| && pcs[t].Idle? && mutex == None && numPending == 0
      modifies this
      ensures Valid() && pcs == old(pcs)[t := Writing] && mutex == Some(t)
    {
      LockWrite(t);
      LockMutex(t);
      AnnounceWriter(t);
    }

    method PostReader(t: nat)
      requires Valid() && t < |pcs| && pcs[t].Posting? && pcs[t].i < pcs[t].r
      modifies this
      ensures Valid() && View() == Step(old(View()), t, Continue)
    {
      StepInv(View(), t, Continue);
      readerWait := readerWait + 1;
      pcs := pcs[t := pcs[t].(i := pcs[t].i + 1)];
    }

    method UnlockMutex(t: nat)
      requires Valid() && t < |pcs| && pcs[t].Posting? && pcs[t].i >= pcs[t].r
      modifies this
      ensures Valid() && View() == Step(old(View()), t, Continue)
    {
      StepInv(View(), t, Continue);
      mutex := None;
      pcs := pcs[t := if pcs[t].keep then Reading else Idle];
    }
  }
}
