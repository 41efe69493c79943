/** `DynamicThreadGroup`: one thread per task, at most `parallelism` of them admitted.
    Unlike the fixed pool, this code joins threads while it holds `mutex_`, and it
    starts a thread and files its handle inside one critical section, so the mutex
    is a field here and taking and releasing it are steps. `getRunningThreadNum`,
    which locks, reads one size and unlocks, is a single step. */
module DynamicThreadGroup {
  import opened Tally

  type TaskId = nat

  /** What thread `tid` is doing; ids that were drawn but never used stay `NotCreated`. */
  datatype Thread =
    | NotCreated
    | Body        // running the task
    | NeedsLock   // task done, about to lock mutex_
    | Locked      // holds mutex_, handle still filed in threads_
    | HandedOff   // holds mutex_, handle moved to finished_threads_
    | Tail        // released mutex_, still returning from the wrapper
    | Exited

  datatype Caller =
    | Idle
    | Probing                 // about to call getRunningThreadNum
    | WantsReap               // saw no room, about to lock and join the finished
    | Reaping                 // holds mutex_, joining
    | Passed                  // saw room
    | Ticketed(task: TaskId)  // drew its id, about to lock
    | Admitted(task: TaskId)  // holds mutex_, saw stopped_ == false
    | Spawned(task: TaskId)   // holds mutex_, thread started, handle not filed yet
    | Stored                  // holds mutex_, handle filed

  datatype Destructor = NotStarted | DtorProbing | DtorWantsLock | DtorReaping | Returned

  datatype Lock = Free | ByThread(t: TaskId) | ByCaller(c: nat) | ByDtor

  datatype State = State(
    parallelism: nat,
    stopped: bool,
    lock: Lock,
    threads: set<TaskId>,      // keys of threads_
    finished: seq<TaskId>,     // finished_threads_
    joined: set<TaskId>,       // handles whose join has returned
    pcs: seq<Thread>,          // indexed by id; its length is tid_
    callers: seq<Caller>,
    dtor: Destructor)

  datatype Action =
    | FinishBody(t: TaskId) | ThreadLock(t: TaskId) | HandOff(t: TaskId) | ThreadUnlock(t: TaskId)
    | ThreadExit(t: TaskId)
    | Enter(c: nat) | Probe(c: nat) | ReapLock(c: nat) | Join(c: nat) | ReapUnlock(c: nat)
    | Ticket(c: nat) | CallerLock(c: nat) | Spawn(c: nat) | Store(c: nat) | CallerUnlock(c: nat)
    | DtorStop | DtorProbe | DtorLock | DtorJoin | DtorReturn

  function Init(parallelism: nat, callers: nat): (s: State)
  {
    State(parallelism, false, Free, {}, [], {}, [], seq(callers, _ => Idle), NotStarted)
  }

  predicate At(s: State, t: TaskId, pc: Thread)
  {
    t < |s.pcs| && s.pcs[t] == pc
  }

  predicate CallerAt(s: State, c: nat, pc: Caller)
  {
    c < |s.callers| && s.callers[c] == pc
  }

  /** `finished_threads_.front().join()` returns only once that thread has ended. */
  predicate FrontEnded(s: State)
  {
    s.finished != [] && At(s, s.finished[0], Exited)
  }

  predicate Enabled(s: State, a: Action)
  {
    match a
    case FinishBody(t) => At(s, t, Body)
    case ThreadLock(t) => At(s, t, NeedsLock) && s.lock.Free?
    case HandOff(t) => At(s, t, Locked)
    case ThreadUnlock(t) => At(s, t, HandedOff)
    case ThreadExit(t) => At(s, t, Tail)
    case Enter(c) => CallerAt(s, c, Idle)
    case Probe(c) => CallerAt(s, c, Probing) && s.lock.Free?
    case ReapLock(c) => CallerAt(s, c, WantsReap) && s.lock.Free?
    case Join(c) => CallerAt(s, c, Reaping) && FrontEnded(s)
    case ReapUnlock(c) => CallerAt(s, c, Reaping) && s.finished == []
    case Ticket(c) => CallerAt(s, c, Passed)
    case CallerLock(c) => c < |s.callers| && s.callers[c].Ticketed? && s.lock.Free?
    case Spawn(c) => c < |s.callers| && s.callers[c].Admitted? && s.callers[c].task < |s.pcs|
    case Store(c) => c < |s.callers| && s.callers[c].Spawned?
    case CallerUnlock(c) => CallerAt(s, c, Stored)
    case DtorStop => s.dtor.NotStarted?
    case DtorProbe => s.dtor.DtorProbing? && s.lock.Free?
    case DtorLock => s.dtor.DtorWantsLock? && s.lock.Free?
    case DtorJoin => s.dtor.DtorReaping? && FrontEnded(s)
    case DtorReturn => s.dtor.DtorReaping? && s.finished == []
  }

  function SetThread(s: State, t: TaskId, pc: Thread): State
    requires t < |s.pcs|
  {
    s.(pcs := s.pcs[t := pc])
  }

  function SetCaller(s: State, c: nat, pc: Caller): State
    requires c < |s.callers|
  {
    s.(callers := s.callers[c := pc])
  }

  function JoinFront(s: State): State
    requires FrontEnded(s)
  {
    s.(finished := s.finished[1..], joined := s.joined + {s.finished[0]})
  }

  function Apply(s: State, a: Action): State
    requires Enabled(s, a)
  {
    match a
    case FinishBody(t) => SetThread(s, t, NeedsLock)
    case ThreadLock(t) => SetThread(s, t, Locked).(lock := ByThread(t))
    case HandOff(t) =>
      SetThread(s, t, HandedOff).(threads := s.threads - {t}, finished := s.finished + [t])
    case ThreadUnlock(t) => SetThread(s, t, Tail).(lock := Free)
    case ThreadExit(t) => SetThread(s, t, Exited)
    case Enter(c) => if s.stopped then s else SetCaller(s, c, Probing)
    case Probe(c) => SetCaller(s, c, if |s.threads| >= s.parallelism then WantsReap else Passed)
    case ReapLock(c) => SetCaller(s, c, Reaping).(lock := ByCaller(c))
    case Join(c) => JoinFront(s)
    case ReapUnlock(c) => SetCaller(s, c, Probing).(lock := Free)
    case Ticket(c) => SetCaller(s, c, Ticketed(|s.pcs|)).(pcs := s.pcs + [NotCreated])
    case CallerLock(c) =>
      if s.stopped then SetCaller(s, c, Idle)
      else SetCaller(s, c, Admitted(s.callers[c].task)).(lock := ByCaller(c))
    case Spawn(c) => SetThread(SetCaller(s, c, Spawned(s.callers[c].task)), s.callers[c].task, Body)
    case Store(c) => SetCaller(s, c, Stored).(threads := s.threads + {s.callers[c].task})
    case CallerUnlock(c) => SetCaller(s, c, Idle).(lock := Free)
    case DtorStop => s.(stopped := true, dtor := DtorProbing)
    case DtorProbe => if |s.threads| > 0 then s else s.(dtor := DtorWantsLock)
    case DtorLock => s.(dtor := DtorReaping, lock := ByDtor)
    case DtorJoin => JoinFront(s)
    case DtorReturn => s.(dtor := Returned, lock := Free)
  }

  ghost predicate Run(from: State, schedule: seq<Action>, to: State)
    decreases |schedule|
  {
    if schedule == [] then from == to
    else Enabled(from, schedule[0]) && Run(Apply(from, schedule[0]), schedule[1..], to)
  }

  ghost predicate Reachable(parallelism: nat, callers: nat, schedule: seq<Action>, s: State)
  {
    Run(Init(parallelism, callers), schedule, s)
  }

  // ---------------------------------------------------------------- invariant

  predicate HoldsLock(c: Caller)
  {
    c.Reaping? || c.Admitted? || c.Spawned? || c.Stored?
  }

  /** The program counters agree on who is inside a critical section. */
  ghost predicate LockExact(s: State)
  {
    && (forall t :: 0 <= t < |s.pcs| ==> ((s.pcs[t].Locked? || s.pcs[t].HandedOff?) <==> s.lock == ByThread(t)))
    && (forall c :: 0 <= c < |s.callers| ==> (HoldsLock(s.callers[c]) <==> s.lock == ByCaller(c)))
    && (s.dtor.DtorReaping? <==> s.lock == ByDtor)
    && (s.lock.ByThread? ==> s.lock.t < |s.pcs|)
    && (s.lock.ByCaller? ==> s.lock.c < |s.callers|)
  }

  /** The handle a caller has started but not filed yet, if any. */
  predicate InFlight(s: State, t: TaskId)
  {
    s.lock.ByCaller? && s.lock.c < |s.callers| && s.callers[s.lock.c] == Spawned(t)
  }

  predicate Unfinished(pc: Thread)
  {
    pc.Body? || pc.NeedsLock? || pc.Locked?
  }

  /** Where the handle of thread `t` is, as its program counter has it: with the
      caller or in threads_ until the hand-off, then in finished_threads_ until joined. */
  ghost predicate HandlePlaced(s: State, t: TaskId)
    requires t < |s.pcs|
  {
    match s.pcs[t]
    case NotCreated => t !in s.threads && t !in s.finished && t !in s.joined && !InFlight(s, t)
    case Locked => t in s.threads && t !in s.finished && t !in s.joined && !InFlight(s, t)
    case HandedOff => t in s.finished && t !in s.threads && t !in s.joined && !InFlight(s, t)
    case Tail => t in s.finished && t !in s.threads && t !in s.joined && !InFlight(s, t)
    case Exited => (t in s.finished <==> t !in s.joined) && t !in s.threads && !InFlight(s, t)
    case _ => (t in s.threads <==> !InFlight(s, t)) && t !in s.finished && t !in s.joined
  }

  ghost predicate HandlesPlaced(s: State)
  {
    && (forall t :: 0 <= t < |s.pcs| ==> HandlePlaced(s, t))
    && (forall t :: t in s.threads ==> t < |s.pcs|)
    && (forall t :: t in s.finished ==> t < |s.pcs|)
    && (forall t :: t in s.joined ==> t < |s.pcs|)
    && (forall i, j :: 0 <= i < j < |s.finished| ==> s.finished[i] != s.finished[j])
  }

  predicate HasTicket(c: Caller)
  {
    c.Ticketed? || c.Admitted?
  }

  ghost predicate TicketsFresh(s: State)
  {
    && (forall c :: 0 <= c < |s.callers| && HasTicket(s.callers[c]) ==>
          s.callers[c].task < |s.pcs| && s.pcs[s.callers[c].task].NotCreated?)
    && (forall c :: 0 <= c < |s.callers| && s.callers[c].Spawned? ==> s.callers[c].task < |s.pcs|)
    && (forall c, d :: 0 <= c < d < |s.callers| && HasTicket(s.callers[c]) && HasTicket(s.callers[d]) ==>
          s.callers[c].task != s.callers[d].task)
  }

  /** Once the destructor has seen threads_ empty, nothing can be added any more. */
  ghost predicate ShutdownOrdered(s: State)
  {
    && (s.stopped <==> !s.dtor.NotStarted?)
    && (s.dtor.DtorWantsLock? || s.dtor.DtorReaping? || s.dtor.Returned? ==>
          && s.threads == {}
          && (forall c :: 0 <= c < |s.callers| ==>
                !s.callers[c].Admitted? && !s.callers[c].Spawned? && !s.callers[c].Stored?))
    && (s.dtor.Returned? ==> s.finished == [])
  }

  function PastProbe(c: Caller): nat
  {
    if c.Passed? || c.Ticketed? || c.Admitted? || c.Spawned? then 1 else 0
  }

  function Spawning(c: Caller): nat
  {
    if c.Spawned? then 1 else 0
  }

  function CountsAsLive(pc: Thread): nat
  {
    if Unfinished(pc) then 1 else 0
  }

  /** threads_ plus the callers let past the probe never exceed the allowance. */
  ghost predicate WithinAllowance(s: State)
  {
    |s.callers| > 0 && s.parallelism > 0 ==>
      |s.threads| + Total(s.callers, PastProbe) <= s.parallelism + |s.callers| - 1
  }

  ghost predicate LiveCounted(s: State)
  {
    Total(s.pcs, CountsAsLive) == |s.threads| + Total(s.callers, Spawning)
  }

  ghost predicate Inv(s: State)
  {
    && LockExact(s) && HandlesPlaced(s) && TicketsFresh(s)
    && ShutdownOrdered(s) && WithinAllowance(s) && LiveCounted(s)
  }

  lemma InitInv(parallelism: nat, callers: nat)
    ensures Inv(Init(parallelism, callers))
  {
    TotalIsZero(Init(parallelism, callers).callers, PastProbe);
    TotalIsZero(Init(parallelism, callers).callers, Spawning);
  }

  // ------------------------------------------------ every step keeps the invariant

  predicate ThreadAction(a: Action)
  {
    a.FinishBody? || a.ThreadLock? || a.HandOff? || a.ThreadUnlock? || a.ThreadExit?
  }

  predicate DtorAction(a: Action)
  {
    a.DtorStop? || a.DtorProbe? || a.DtorLock? || a.DtorJoin? || a.DtorReturn?
  }

  lemma KeepsLock(s: State, a: Action)
    requires LockExact(s) && Enabled(s, a)
    ensures LockExact(Apply(s, a))
  {
    if ThreadAction(a) {
      ThreadKeepsLock(s, a);
    }
  }

  lemma ThreadKeepsLock(s: State, a: Action)
    requires LockExact(s) && Enabled(s, a) && ThreadAction(a)
    ensures LockExact(Apply(s, a))
  {
  }

  lemma KeepsHandles(s: State, a: Action)
    requires LockExact(s) && HandlesPlaced(s) && TicketsFresh(s) && Enabled(s, a)
    ensures HandlesPlaced(Apply(s, a))
  {
    if a.HandOff? {
      HandOffKeepsHandles(s, a.t);
    } else if ThreadAction(a) {
      ThreadKeepsHandles(s, a);
    } else if a.Join? || a.DtorJoin? {
      JoinKeepsHandles(s);
    } else if a.Ticket? || a.Spawn? || a.Store? {
      SpawnKeepsHandles(s, a);
    } else {
      HandlesFrame(s, Apply(s, a));
    }
  }

  lemma HandlesFrame(s: State, s': State)
    requires HandlesPlaced(s)
    requires s'.pcs == s.pcs && s'.threads == s.threads && s'.finished == s.finished && s'.joined == s.joined
    requires forall t :: 0 <= t < |s.pcs| ==> InFlight(s, t) == InFlight(s', t)
    ensures HandlesPlaced(s')
  {
    assert forall t :: 0 <= t < |s.pcs| ==> HandlePlaced(s, t) == HandlePlaced(s', t);
  }

  lemma HandOffKeepsHandles(s: State, t: TaskId)
    requires LockExact(s) && HandlesPlaced(s) && At(s, t, Locked)
    ensures HandlesPlaced(Apply(s, HandOff(t)))
  {
    var s' := Apply(s, HandOff(t));
    assert HandlePlaced(s, t);
    forall u | 0 <= u < |s.pcs|
      ensures HandlePlaced(s', u)
    {
      assert HandlePlaced(s, u);
      assert u in s'.finished <==> u in s.finished || u == t;
    }
  }

  lemma ThreadKeepsHandles(s: State, a: Action)
    requires LockExact(s) && HandlesPlaced(s) && Enabled(s, a) && ThreadAction(a) && !a.HandOff?
    ensures HandlesPlaced(Apply(s, a))
  {
    var s' := Apply(s, a);
    forall u | 0 <= u < |s.pcs|
      ensures HandlePlaced(s', u)
    {
      assert HandlePlaced(s, u);
    }
  }

  lemma JoinKeepsHandles(s: State)
    requires HandlesPlaced(s) && FrontEnded(s)
    ensures HandlesPlaced(JoinFront(s))
  {
    var s' := JoinFront(s);
    assert s.finished == [s.finished[0]] + s'.finished;
    assert forall t :: t in s'.finished ==> t in s.finished;
    forall u | 0 <= u < |s.pcs|
      ensures HandlePlaced(s', u)
    {
      assert HandlePlaced(s, u);
      assert u in s'.finished <==> u in s.finished && u != s.finished[0];
    }
  }

  lemma SpawnKeepsHandles(s: State, a: Action)
    requires LockExact(s) && HandlesPlaced(s) && TicketsFresh(s) && Enabled(s, a)
    requires a.Ticket? || a.Spawn? || a.Store?
    ensures HandlesPlaced(Apply(s, a))
  {
    var s' := Apply(s, a);
    forall u | 0 <= u < |s'.pcs|
      ensures HandlePlaced(s', u)
    {
      if u < |s.pcs| {
        assert HandlePlaced(s, u);
      }
    }
  }

  lemma KeepsTickets(s: State, a: Action)
    requires LockExact(s) && TicketsFresh(s) && Enabled(s, a)
    ensures TicketsFresh(Apply(s, a))
  {
    if a.Ticket? || a.CallerLock? {
      CallerKeepsTickets(s, a);
    } else if a.Spawn? {
      SpawnKeepsTickets(s, a.c);
    } else if ThreadAction(a) {
      ThreadKeepsTickets(s, a);
    } else if !DtorAction(a) {
      OthersKeepTickets(s, a);
    }
  }

  lemma ThreadKeepsTickets(s: State, a: Action)
    requires TicketsFresh(s) && Enabled(s, a) && ThreadAction(a)
    ensures TicketsFresh(Apply(s, a))
  {
  }

  lemma OthersKeepTickets(s: State, a: Action)
    requires TicketsFresh(s) && Enabled(s, a) && !ThreadAction(a) && !DtorAction(a)
    requires !a.Ticket? && !a.CallerLock? && !a.Spawn?
    ensures TicketsFresh(Apply(s, a))
  {
    var s' := Apply(s, a);
    assert s'.pcs == s.pcs;
    assert forall c :: 0 <= c < |s.callers| && HasTicket(s'.callers[c]) ==> s'.callers[c] == s.callers[c];
  }

  lemma CallerKeepsTickets(s: State, a: Action)
    requires TicketsFresh(s) && Enabled(s, a) && (a.Ticket? || a.CallerLock?)
    ensures TicketsFresh(Apply(s, a))
  {
  }

  lemma SpawnKeepsTickets(s: State, c: nat)
    requires TicketsFresh(s) && Enabled(s, Spawn(c))
    ensures TicketsFresh(Apply(s, Spawn(c)))
  {
  }

  lemma KeepsShutdown(s: State, a: Action)
    requires LockExact(s) && ShutdownOrdered(s) && HandlesPlaced(s) && Enabled(s, a)
    ensures ShutdownOrdered(Apply(s, a))
  {
    if ThreadAction(a) {
      ThreadKeepsShutdown(s, a);
    } else if !DtorAction(a) {
      CallerKeepsShutdown(s, a);
    }
  }

  lemma ThreadKeepsShutdown(s: State, a: Action)
    requires ShutdownOrdered(s) && HandlesPlaced(s) && Enabled(s, a) && ThreadAction(a)
    ensures ShutdownOrdered(Apply(s, a))
  {
    assert HandlePlaced(s, a.t);
  }

  lemma CallerKeepsShutdown(s: State, a: Action)
    requires ShutdownOrdered(s) && Enabled(s, a) && !ThreadAction(a) && !DtorAction(a)
    ensures ShutdownOrdered(Apply(s, a))
  {
  }

  lemma KeepsAllowance(s: State, a: Action)
    requires WithinAllowance(s) && Enabled(s, a)
    ensures WithinAllowance(Apply(s, a))
  {
    if a.Probe? {
      ProbeKeepsAllowance(s, a.c);
    } else if a.Store? {
      TotalUpdate(s.callers, a.c, Stored, PastProbe);
    } else if !ThreadAction(a) && !DtorAction(a) {
      AllowanceFrame(s, a);
    }
  }

  lemma AllowanceFrame(s: State, a: Action)
    requires Enabled(s, a) && !a.Probe? && !a.Store? && !ThreadAction(a) && !DtorAction(a)
    ensures Apply(s, a).threads == s.threads
    ensures Total(Apply(s, a).callers, PastProbe) <= Total(s.callers, PastProbe)
  {
    if !a.Join? && Apply(s, a) != s {
      TotalUpdate(s.callers, a.c, Apply(s, a).callers[a.c], PastProbe);
    }
  }

  /** Where the bound comes from: a caller passes with at most parallelism - 1
      threads filed, and at most all callers are past the probe. */
  lemma ProbeKeepsAllowance(s: State, c: nat)
    requires WithinAllowance(s) && Enabled(s, Probe(c))
    ensures WithinAllowance(Apply(s, Probe(c)))
  {
    var s' := Apply(s, Probe(c));
    TotalUpdate(s.callers, c, s'.callers[c], PastProbe);
    TotalAtMostLength(s'.callers, PastProbe);
  }

  lemma KeepsLiveCount(s: State, a: Action)
    requires LiveCounted(s) && HandlesPlaced(s) && LockExact(s) && TicketsFresh(s) && Enabled(s, a)
    ensures LiveCounted(Apply(s, a))
  {
    if ThreadAction(a) {
      ThreadKeepsLiveCount(s, a);
    } else if a.Spawn? || a.Store? {
      SpawnKeepsLiveCount(s, a);
    } else if a.Ticket? {
      TotalUpdate(s.callers, a.c, Ticketed(|s.pcs|), Spawning);
      TotalAppend(s.pcs, NotCreated, CountsAsLive);
    } else if !DtorAction(a) {
      LiveCountFrame(s, a);
    }
  }

  lemma LiveCountFrame(s: State, a: Action)
    requires Enabled(s, a) && !a.Spawn? && !a.Store? && !a.Ticket? && !ThreadAction(a) && !DtorAction(a)
    ensures Apply(s, a).threads == s.threads && Apply(s, a).pcs == s.pcs
    ensures Total(Apply(s, a).callers, Spawning) == Total(s.callers, Spawning)
  {
    TotalPointwise(s.callers, Apply(s, a).callers, Spawning);
  }

  lemma ThreadKeepsLiveCount(s: State, a: Action)
    requires LiveCounted(s) && HandlesPlaced(s) && Enabled(s, a) && ThreadAction(a)
    ensures LiveCounted(Apply(s, a))
  {
    assert HandlePlaced(s, a.t);
    TotalUpdate(s.pcs, a.t, Apply(s, a).pcs[a.t], CountsAsLive);
  }

  lemma SpawnKeepsLiveCount(s: State, a: Action)
    requires LiveCounted(s) && HandlesPlaced(s) && LockExact(s) && TicketsFresh(s) && Enabled(s, a)
    requires a.Spawn? || a.Store?
    ensures LiveCounted(Apply(s, a))
  {
    var task := s.callers[a.c].task;
    assert HandlePlaced(s, task);
    TotalUpdate(s.callers, a.c, Apply(s, a).callers[a.c], Spawning);
    if a.Spawn? {
      TotalUpdate(s.pcs, task, Body, CountsAsLive);
    }
  }

  lemma StepInv(s: State, a: Action)
    requires Inv(s) && Enabled(s, a)
    ensures Inv(Apply(s, a))
  {
    KeepsLock(s, a);
    KeepsHandles(s, a);
    KeepsTickets(s, a);
    KeepsShutdown(s, a);
    KeepsAllowance(s, a);
    KeepsLiveCount(s, a);
  }

  lemma {:induction false} RunInv(from: State, schedule: seq<Action>, to: State)
    requires Inv(from) && Run(from, schedule, to)
    ensures Inv(to)
    decreases |schedule|
  {
    if schedule != [] {
      StepInv(from, schedule[0]);
      RunInv(Apply(from, schedule[0]), schedule[1..], to);
    }
  }

  lemma ReachableInv(parallelism: nat, callers: nat, schedule: seq<Action>, s: State)
    requires Reachable(parallelism, callers, schedule, s)
    ensures Inv(s) && s.parallelism == parallelism && |s.callers| == callers
  {
    InitInv(parallelism, callers);
    RunInv(Init(parallelism, callers), schedule, s);
    RunKeepsShape(Init(parallelism, callers), schedule, s);
  }

  lemma {:induction false} RunKeepsShape(from: State, schedule: seq<Action>, to: State)
    requires Run(from, schedule, to)
    ensures to.parallelism == from.parallelism && |to.callers| == |from.callers|
    decreases |schedule|
  {
    if schedule != [] {
      RunKeepsShape(Apply(from, schedule[0]), schedule[1..], to);
    }
  }

  // ------------------------------------------------------------ safety of runs

  predicate Created(s: State, t: TaskId)
  {
    t < |s.pcs| && !s.pcs[t].NotCreated?
  }

  /** In how many of its four possible places the handle of `t` is. */
  function Places(s: State, t: TaskId): nat
  {
    (if InFlight(s, t) then 1 else 0) + (if t in s.threads then 1 else 0)
    + (if t in s.finished then 1 else 0) + (if t in s.joined then 1 else 0)
  }

  /** In every interleaving a started thread's handle is in exactly one place, and the
      wrapper's `threads_.at(tid)` finds it when the wrapper reaches that line. */
  lemma EachHandleInExactlyOnePlace(parallelism: nat, callers: nat, schedule: seq<Action>, s: State, t: TaskId)
    requires Reachable(parallelism, callers, schedule, s)
    ensures Places(s, t) == if Created(s, t) then 1 else 0
    ensures At(s, t, Locked) ==> t in s.threads
    ensures t in s.joined ==> At(s, t, Exited)
  {
    ReachableInv(parallelism, callers, schedule, s);
    if t < |s.pcs| {
      assert HandlePlaced(s, t);
    }
  }

  /** When the destructor has returned, every thread ever started has been joined. */
  lemma DestructorJoinsEveryThread(parallelism: nat, callers: nat, schedule: seq<Action>, s: State, t: TaskId)
    requires Reachable(parallelism, callers, schedule, s) && s.dtor.Returned? && Created(s, t)
    ensures t in s.joined && At(s, t, Exited)
  {
    ReachableInv(parallelism, callers, schedule, s);
    assert HandlePlaced(s, t);
  }

  /** The thread of `t` is started, or its caller is past the second look at stopped_. */
  ghost predicate Promised(s: State, t: TaskId)
  {
    t < |s.pcs| && (s.pcs[t].NotCreated? ==> exists c :: 0 <= c < |s.callers| && s.callers[c] == Admitted(t))
  }

  /** No thread is started for `t`, and no caller is left that would. */
  ghost predicate Dropped(s: State, t: TaskId)
  {
    && t < |s.pcs| && s.pcs[t].NotCreated?
    && forall c :: 0 <= c < |s.callers| && HasTicket(s.callers[c]) ==> s.callers[c].task != t
  }

  lemma PromiseStays(s: State, a: Action, t: TaskId)
    requires Enabled(s, a) && Promised(s, t)
    ensures Promised(Apply(s, a), t)
  {
    var s' := Apply(s, a);
    if s.pcs[t].NotCreated? {
      var c :| 0 <= c < |s.callers| && s.callers[c] == Admitted(t);
      if a == Spawn(c) {
        assert !s'.pcs[t].NotCreated?;
      } else {
        assert s'.callers[c] == s.callers[c];
      }
    }
  }

  lemma DropStays(s: State, a: Action, t: TaskId)
    requires Enabled(s, a) && Dropped(s, t)
    ensures Dropped(Apply(s, a), t)
  {
    var s' := Apply(s, a);
    forall c | 0 <= c < |s.callers| && HasTicket(s'.callers[c]) ensures s'.callers[c].task != t {
      if !HasTicket(s.callers[c]) {
        assert a == Ticket(c);
      }
    }
  }

  lemma {:induction false} RunDecides(from: State, schedule: seq<Action>, to: State, t: TaskId)
    requires Run(from, schedule, to)
    ensures Promised(from, t) ==> Promised(to, t)
    ensures Dropped(from, t) ==> Dropped(to, t)
    decreases |schedule|
  {
    if schedule != [] {
      if Promised(from, t) {
        PromiseStays(from, schedule[0], t);
      }
      if Dropped(from, t) {
        DropStays(from, schedule[0], t);
      }
      RunDecides(Apply(from, schedule[0]), schedule[1..], to, t);
    }
  }

  /** A caller that takes the lock in state `mid` gets its thread, which has ended and been
      joined when the destructor has returned, if and only if the group was not stopped. */
  lemma TaskStartsIffNotStopped(parallelism: nat, callers: nat, before: seq<Action>, mid: State, c: nat,
                                after: seq<Action>, s: State)
    requires Reachable(parallelism, callers, before, mid) && Enabled(mid, CallerLock(c))
    requires Run(Apply(mid, CallerLock(c)), after, s) && s.dtor.Returned?
    ensures var t := mid.callers[c].task;
            if mid.stopped then At(s, t, NotCreated) else At(s, t, Exited) && t in s.joined
  {
    var t, locked := mid.callers[c].task, Apply(mid, CallerLock(c));
    ReachableInv(parallelism, callers, before, mid);
    StepInv(mid, CallerLock(c));
    RunInv(locked, after, s);
    LockDecides(mid, c);
    RunDecides(locked, after, s, t);
    if Promised(s, t) {
      PromisedIsJoined(s, t);
    }
  }

  lemma LockDecides(s: State, c: nat)
    requires TicketsFresh(s) && Enabled(s, CallerLock(c))
    ensures var s', t := Apply(s, CallerLock(c)), s.callers[c].task; if s.stopped then Dropped(s', t) else Promised(s', t)
  {
    var s' := Apply(s, CallerLock(c));
    assert !s.stopped ==> s'.callers[c] == Admitted(s.callers[c].task);
  }

  lemma PromisedIsJoined(s: State, t: TaskId)
    requires HandlesPlaced(s) && LockExact(s) && ShutdownOrdered(s) && s.dtor.Returned? && Promised(s, t)
    ensures At(s, t, Exited) && t in s.joined
  {
    assert HandlePlaced(s, t);
  }

  /** With k callers, at most parallelism + k - 1 tasks are unfinished at any time. */
  lemma LiveTasksBounded(parallelism: nat, callers: nat, schedule: seq<Action>, s: State)
    requires Reachable(parallelism, callers, schedule, s) && parallelism > 0 && callers > 0
    ensures |s.threads| <= parallelism + callers - 1
    ensures Total(s.pcs, CountsAsLive) <= parallelism + callers - 1
  {
    ReachableInv(parallelism, callers, schedule, s);
    TotalMonotone(s.callers, Spawning, PastProbe);
  }

  lemma {:induction false} RunAppend(from: State, schedule: seq<Action>, mid: State, a: Action)
    requires Run(from, schedule, mid) && Enabled(mid, a)
    ensures Run(from, schedule + [a], Apply(mid, a))
    decreases |schedule|
  {
    if schedule == [] {
      assert ([a])[1..] == [];
    } else {
      assert (schedule + [a])[1..] == schedule[1..] + [a];
      RunAppend(Apply(from, schedule[0]), schedule[1..], mid, a);
    }
  }

  function Unended(pc: Thread): nat
  {
    if pc.NotCreated? || pc.Exited? then 0 else 1
  }

  ghost predicate ThreadsBounded(parallelism: nat, callers: nat, bound: nat)
  {
    forall schedule, s :: Reachable(parallelism, callers, schedule, s) ==> Total(s.pcs, Unended) <= bound
  }

  /** The bound counts tasks, not operating-system threads. Threads that have not ended are
      bounded only where no thread can ever start: without callers, or with parallelism 0. */
  lemma ThreadsBoundedIff(parallelism: nat, callers: nat)
    ensures (exists bound :: ThreadsBounded(parallelism, callers, bound)) <==> parallelism == 0 || callers == 0
  {
    if parallelism == 0 || callers == 0 {
      forall schedule, s | Reachable(parallelism, callers, schedule, s) ensures Total(s.pcs, Unended) <= 0 {
        RunStartsNothing(Init(parallelism, callers), schedule, s);
      }
      assert ThreadsBounded(parallelism, callers, 0);
    } else {
      forall bound: nat ensures !ThreadsBounded(parallelism, callers, bound) {
        var schedule, s := EndingThreadsAreUnbounded(parallelism, callers, bound + 1);
        AllUnended(s.pcs);
        assert Reachable(parallelism, callers, schedule, s) && Total(s.pcs, Unended) > bound;
      }
    }
  }

  lemma {:induction false} AllUnended(pcs: seq<Thread>)
    requires forall t :: 0 <= t < |pcs| ==> pcs[t] == Tail
    ensures Total(pcs, Unended) == |pcs|
  {
    if pcs != [] {
      AllUnended(pcs[1..]);
    }
  }

  /** Nobody gets past the probe, so no id is drawn. */
  ghost predicate StartsNothing(s: State)
  {
    && s.pcs == [] && (s.parallelism == 0 || s.callers == [])
    && forall c :: 0 <= c < |s.callers| ==>
      s.callers[c].Idle? || s.callers[c].Probing? || s.callers[c].WantsReap? || s.callers[c].Reaping?
  }

  lemma {:induction false} RunStartsNothing(from: State, schedule: seq<Action>, to: State)
    requires StartsNothing(from) && Run(from, schedule, to)
    ensures StartsNothing(to)
    decreases |schedule|
  {
    if schedule != [] {
      RunStartsNothing(Apply(from, schedule[0]), schedule[1..], to);
    }
  }

  /** With a caller and any parallelism, any number of threads can be on their way out at
      once, because a thread leaves threads_ before it ends. */
  lemma EndingThreadsAreUnbounded(parallelism: nat, callers: nat, n: nat) returns (schedule: seq<Action>, s: State)
    requires parallelism > 0 && callers > 0
    ensures Reachable(parallelism, callers, schedule, s)
    ensures |s.pcs| == n && forall t :: 0 <= t < n ==> s.pcs[t] == Tail
  {
    schedule, s := [], Init(parallelism, callers);
    for i := 0 to n
      invariant Reachable(parallelism, callers, schedule, s)
      invariant AtRest(s)
      invariant |s.pcs| == i && forall t :: 0 <= t < i ==> s.pcs[t] == Tail
    {
      schedule, s := OneTask(parallelism, callers, schedule, s);
    }
  }

  ghost predicate AtRest(s: State)
  {
    s.parallelism > 0 && !s.stopped && s.lock.Free? && s.threads == {} && CallerAt(s, 0, Idle)
  }

  lemma OneTask(p: nat, k: nat, schedule: seq<Action>, s: State) returns (schedule': seq<Action>, s': State)
    requires Reachable(p, k, schedule, s) && AtRest(s)
    ensures Reachable(p, k, schedule', s')
    ensures s' == s.(pcs := s.pcs + [Tail], finished := s.finished + [|s.pcs|])
  {
    var t := |s.pcs|;
    schedule', s' := StartTask(p, k, schedule, s);
    schedule', s' := Extend(p, k, schedule', s', FinishBody(t));
    schedule', s' := Extend(p, k, schedule', s', ThreadLock(t));
    schedule', s' := Extend(p, k, schedule', s', HandOff(t));
    schedule', s' := Extend(p, k, schedule', s', ThreadUnlock(t));
  }

  lemma StartTask(p: nat, k: nat, schedule: seq<Action>, s: State) returns (schedule': seq<Action>, s': State)
    requires Reachable(p, k, schedule, s) && AtRest(s)
    ensures Reachable(p, k, schedule', s')
    ensures s' == s.(pcs := s.pcs + [Body], threads := {|s.pcs|})
  {
    schedule', s' := AdmitTask(p, k, schedule, s);
    schedule', s' := Extend(p, k, schedule', s', Spawn(0));
    schedule', s' := Extend(p, k, schedule', s', Store(0));
    schedule', s' := Extend(p, k, schedule', s', CallerUnlock(0));
    assert s'.callers == s.callers;
  }

  lemma AdmitTask(p: nat, k: nat, schedule: seq<Action>, s: State) returns (schedule': seq<Action>, s': State)
    requires Reachable(p, k, schedule, s) && AtRest(s)
    ensures Reachable(p, k, schedule', s')
    ensures s' == s.(pcs := s.pcs + [NotCreated], callers := s.callers[0 := Admitted(|s.pcs|)], lock := ByCaller(0))
  {
    schedule', s' := PassProbe(p, k, schedule, s);
    schedule', s' := Extend(p, k, schedule', s', Ticket(0));
    schedule', s' := Extend(p, k, schedule', s', CallerLock(0));
    assert s'.callers == s.callers[0 := Admitted(|s.pcs|)];
  }

  lemma PassProbe(p: nat, k: nat, schedule: seq<Action>, s: State) returns (schedule': seq<Action>, s': State)
    requires Reachable(p, k, schedule, s) && AtRest(s)
    ensures Reachable(p, k, schedule', s')
    ensures s' == s.(callers := s.callers[0 := Passed])
  {
    schedule', s' := Extend(p, k, schedule, s, Enter(0));
    schedule', s' := Extend(p, k, schedule', s', Probe(0));
    assert s'.callers == s.callers[0 := Passed];
  }

  lemma Extend(p: nat, k: nat, schedule: seq<Action>, s: State, a: Action) returns (schedule': seq<Action>, s': State)
    requires Reachable(p, k, schedule, s) && Enabled(s, a)
    ensures Reachable(p, k, schedule', s') && s' == Apply(s, a)
  {
    RunAppend(Init(p, k), schedule, s, a);
    schedule', s' := schedule + [a], Apply(s, a);
  }

  // ------------------------------------------------------------ no deadlock

  /** Whoever holds mutex_ can go on without it being released first: if the holder
      waits in a join, the thread it waits for needs only to return. */
  lemma LockHolderCanMove(s: State) returns (a: Action)
    requires Inv(s) && !s.lock.Free?
    ensures Enabled(s, a)
    ensures
      || (s.lock.ByThread? && a in {HandOff(s.lock.t), ThreadUnlock(s.lock.t)})
      || (s.lock.ByCaller? && a in {Join(s.lock.c), ReapUnlock(s.lock.c), Spawn(s.lock.c), Store(s.lock.c), CallerUnlock(s.lock.c)})
      || (s.lock.ByDtor? && a in {DtorJoin, DtorReturn})
      || (s.finished != [] && a == ThreadExit(s.finished[0]))
  {
    if s.finished != [] {
      assert s.finished[0] in s.finished;
      assert HandlePlaced(s, s.finished[0]);
    }
    match s.lock
    case ByThread(t) => a := if s.pcs[t].Locked? then HandOff(t) else ThreadUnlock(t);
    case ByCaller(c) =>
      var pc := s.callers[c];
      a := if pc.Admitted? then Spawn(c) else if pc.Spawned? then Store(c) else if pc.Stored? then CallerUnlock(c)
           else if s.finished == [] then ReapUnlock(c)
           else if s.pcs[s.finished[0]].Exited? then Join(c) else ThreadExit(s.finished[0]);
    case ByDtor =>
      a := if s.finished == [] then DtorReturn
           else if s.pcs[s.finished[0]].Exited? then DtorJoin else ThreadExit(s.finished[0]);
  }

  function ThreadWeight(pc: Thread): nat
  {
    match pc
    case NotCreated => 0
    case Exited => 1
    case Tail => 2
    case HandedOff => 3
    case Locked => 5
    case NeedsLock => 6
    case Body => 7
  }

  function CallerWeight(c: Caller): nat
  {
    if c.Admitted? then 10 else if c.Spawned? then 2 else if HoldsLock(c) then 1 else 0
  }

  function DtorWeight(d: Destructor): nat
  {
    match d
    case NotStarted => 4
    case DtorProbing => 3
    case DtorWantsLock => 2
    case DtorReaping => 1
    case Returned => 0
  }

  function Remaining(s: State): nat
  {
    Total(s.pcs, ThreadWeight) + Total(s.callers, CallerWeight) + |s.finished| + DtorWeight(s.dtor)
  }

  /** The steps that bring shutdown closer: anything a thread, a lock holder or the
      destructor does. Left out are only callers that probe, wait or give up. */
  predicate Advances(s: State, a: Action)
  {
    && (ThreadAction(a) || DtorAction(a) || a.Join? || a.ReapUnlock? || a.Spawn? || a.Store? || a.CallerUnlock?)
    && (a.DtorProbe? ==> s.threads == {})
  }

  lemma AdvanceDecreases(s: State, a: Action)
    requires TicketsFresh(s) && Enabled(s, a) && Advances(s, a)
    ensures Remaining(Apply(s, a)) < Remaining(s)
  {
    if ThreadAction(a) {
      ThreadAdvanceDecreases(s, a);
    } else if !DtorAction(a) && !a.Join? {
      CallerAdvanceDecreases(s, a);
    }
  }

  lemma ThreadAdvanceDecreases(s: State, a: Action)
    requires Enabled(s, a) && ThreadAction(a)
    ensures Remaining(Apply(s, a)) < Remaining(s)
  {
    TotalUpdate(s.pcs, a.t, Apply(s, a).pcs[a.t], ThreadWeight);
  }

  lemma CallerAdvanceDecreases(s: State, a: Action)
    requires TicketsFresh(s) && Enabled(s, a) && (a.ReapUnlock? || a.Spawn? || a.Store? || a.CallerUnlock?)
    ensures Remaining(Apply(s, a)) < Remaining(s)
  {
    TotalUpdate(s.callers, a.c, Apply(s, a).callers[a.c], CallerWeight);
    if a.Spawn? {
      TotalUpdate(s.pcs, s.callers[a.c].task, Body, ThreadWeight);
    }
  }

  /** While the destructor has not returned, an advancing step is always possible. */
  lemma StoppedCanAdvance(s: State) returns (a: Action)
    requires Inv(s) && s.stopped && !s.dtor.Returned?
    ensures Enabled(s, a) && Advances(s, a)
  {
    forall t | t in s.threads
      ensures Unfinished(s.pcs[t])
    {
      assert HandlePlaced(s, t);
    }
    if !s.lock.Free? {
      a := LockHolderCanMove(s);
    } else if t :| 0 <= t < |s.pcs| && (s.pcs[t].Body? || s.pcs[t].NeedsLock?) {
      a := if s.pcs[t].Body? then FinishBody(t) else ThreadLock(t);
    } else {
      assert forall t :: t !in s.threads;
      a := if s.dtor.DtorProbing? then DtorProbe else DtorLock;
    }
  }

  /** From every state with stopped_ set, the destructor can be run to its end, so
      no join taken under mutex_ ever deadlocks it. */
  lemma {:induction false} DestructorReturns(s: State) returns (schedule: seq<Action>, end: State)
    requires Inv(s) && s.stopped
    ensures Run(s, schedule, end) && end.dtor.Returned?
    decreases Remaining(s)
  {
    if s.dtor.Returned? {
      return [], s;
    }
    var a := StoppedCanAdvance(s);
    StepInv(s, a);
    AdvanceDecreases(s, a);
    var rest;
    rest, end := DestructorReturns(Apply(s, a));
    schedule := [a] + rest;
    assert schedule[1..] == rest;
  }
}
