/** `ThreadGroup`: a fixed pool of workers fed through one queue, guarded by a mutex
    and a condition variable. Every critical section of `mutex_` is one step here;
    atomics, `notify_one`, `notify_all` and `join` are steps of their own, and a
    run is any interleaving of the workers, any number of `AddTask` callers and the
    destructor. `condition_.wait` may also return without being notified. */
module ThreadGroup {
  import opened Tally

  type TaskId = nat

  datatype Worker =
    | Ready                  // about to lock mutex_ and evaluate the wait predicate
    | Asleep                 // inside condition_.wait, mutex_ released
    | Popped(task: TaskId)   // has taken a task, running_task_num_ not yet bumped
    | Running(task: TaskId)  // bumped the counter, has not run the task yet
    | Ran                    // ran the task, running_task_num_ not yet lowered
    | Exited

  datatype Caller =
    | Idle
    | Checked                 // passed the first look at stopped_
    | Ticketed(task: TaskId)  // drew its task id, about to lock
    | OwesNotify              // pushed its task, notify_one still to come

  datatype Destructor =
    | NotStarted
    | Spinning            // stopped_ is set, waiting for running_task_num_ == 0
    | Notifying           // saw zero, notify_all still to come
    | Joining(next: nat)  // joined the workers before `next`
    | Returned

  /** The shared fields, every thread's program counter, and four histories: the
      tasks accepted, refused, taken off the queue, and run, each in order. */
  datatype State = State(
    stopped: bool,
    runningTaskNum: int,
    tid: nat,
    pending: seq<TaskId>,
    workers: seq<Worker>,
    callers: seq<Caller>,
    dtor: Destructor,
    accepted: seq<TaskId>,
    refused: seq<TaskId>,
    started: seq<TaskId>,
    ran: seq<TaskId>)

  datatype Action =
    | WorkerLock(w: nat) | WorkerBegin(w: nat) | WorkerRun(w: nat) | WorkerEnd(w: nat)
    | SpuriousWake(w: nat)
    | CallerCheck(c: nat) | CallerTicket(c: nat) | CallerPush(c: nat)
    | CallerNotify(c: nat, woken: nat)
    | DtorStop | DtorSpin | DtorNotifyAll | DtorJoin

  function Init(parallelism: nat, callers: nat): (s: State)
  {
    State(false, 0, 0, [], seq(parallelism, _ => Ready), seq(callers, _ => Idle),
          NotStarted, [], [], [], [])
  }

  predicate NoneAsleep(s: State)
  {
    forall w :: 0 <= w < |s.workers| ==> !s.workers[w].Asleep?
  }

  predicate Enabled(s: State, a: Action)
  {
    match a
    case WorkerLock(w) => w < |s.workers| && s.workers[w].Ready?
    case WorkerBegin(w) => w < |s.workers| && s.workers[w].Popped?
    case WorkerRun(w) => w < |s.workers| && s.workers[w].Running?
    case WorkerEnd(w) => w < |s.workers| && s.workers[w].Ran?
    case SpuriousWake(w) => w < |s.workers| && s.workers[w].Asleep?
    case CallerCheck(c) => c < |s.callers| && s.callers[c].Idle?
    case CallerTicket(c) => c < |s.callers| && s.callers[c].Checked?
    case CallerPush(c) => c < |s.callers| && s.callers[c].Ticketed?
    case CallerNotify(c, w) =>
      // notify_one wakes one sleeping worker of the scheduler's choice, if any sleeps
      && c < |s.callers| && s.callers[c].OwesNotify?
      && ((w < |s.workers| && s.workers[w].Asleep?) || NoneAsleep(s))
    case DtorStop => s.dtor.NotStarted?
    case DtorSpin => s.dtor.Spinning?
    case DtorNotifyAll => s.dtor.Notifying?
    case DtorJoin =>
      s.dtor.Joining? && (s.dtor.next < |s.workers| ==> s.workers[s.dtor.next].Exited?)
  }

  function WakeAll(ws: seq<Worker>): (r: seq<Worker>)
    ensures |r| == |ws|
    ensures forall w :: 0 <= w < |r| ==> r[w] == if ws[w].Asleep? then Ready else ws[w]
  {
    seq(|ws|, w requires 0 <= w < |ws| => if ws[w].Asleep? then Ready else ws[w])
  }

  function SetWorker(s: State, w: nat, pc: Worker): State
    requires w < |s.workers|
  {
    s.(workers := s.workers[w := pc])
  }

  function SetCaller(s: State, c: nat, pc: Caller): State
    requires c < |s.callers|
  {
    s.(callers := s.callers[c := pc])
  }

  /** The worker's critical section: evaluate the wait predicate, then sleep,
      leave the loop, or take the task at the front of the queue. */
  function LockAndTake(s: State, w: nat): State
    requires w < |s.workers|
  {
    if s.pending == [] then
      SetWorker(s, w, if s.stopped then Exited else Asleep)
    else
      SetWorker(s, w, Popped(s.pending[0]))
      .(pending := s.pending[1..], started := s.started + [s.pending[0]])
  }

  function Apply(s: State, a: Action): State
    requires Enabled(s, a)
  {
    match a
    case WorkerLock(w) => LockAndTake(s, w)
    case WorkerBegin(w) =>
      SetWorker(s, w, Running(s.workers[w].task)).(runningTaskNum := s.runningTaskNum + 1)
    case WorkerRun(w) => SetWorker(s, w, Ran).(ran := s.ran + [s.workers[w].task])
    case WorkerEnd(w) => SetWorker(s, w, Ready).(runningTaskNum := s.runningTaskNum - 1)
    case SpuriousWake(w) => SetWorker(s, w, Ready)
    case CallerCheck(c) => if s.stopped then s else SetCaller(s, c, Checked)
    case CallerTicket(c) => SetCaller(s, c, Ticketed(s.tid)).(tid := s.tid + 1)
    case CallerPush(c) =>
      if s.stopped then SetCaller(s, c, Idle).(refused := s.refused + [s.callers[c].task])
      else SetCaller(s, c, OwesNotify)
           .(pending := s.pending + [s.callers[c].task], accepted := s.accepted + [s.callers[c].task])
    case CallerNotify(c, w) =>
      var s' := SetCaller(s, c, Idle);
      if w < |s.workers| && s.workers[w].Asleep? then SetWorker(s', w, Ready) else s'
    case DtorStop => s.(stopped := true, dtor := Spinning)
    case DtorSpin => if s.runningTaskNum > 0 then s else s.(dtor := Notifying)
    case DtorNotifyAll => s.(workers := WakeAll(s.workers), dtor := Joining(0))
    case DtorJoin =>
      s.(dtor := if s.dtor.next < |s.workers| then Joining(s.dtor.next + 1) else Returned)
  }

  /** `to` is what some interleaving makes of `from`. */
  ghost predicate Run(from: State, schedule: seq<Action>, to: State)
    decreases |schedule|
  {
    if schedule == [] then from == to
    else Enabled(from, schedule[0]) && Run(Apply(from, schedule[0]), schedule[1..], to)
  }

  // ---------------------------------------------------------------- invariant

  function Holding(w: Worker): multiset<int>
  {
    if w.Popped? || w.Running? then multiset{w.task} else multiset{}
  }

  function Busy(w: Worker): nat
  {
    if w.Running? || w.Ran? then 1 else 0
  }

  /** Tasks leave the queue in the order they were accepted. */
  ghost predicate FirstInFirstOut(s: State)
  {
    s.started + s.pending == s.accepted
  }

  /** Each task taken off the queue is in the hands of one worker or has been run. */
  ghost predicate TasksAccountedFor(s: State)
  {
    Collect(s.workers, Holding) + multiset(s.ran) == multiset(s.started)
  }

  function Drawn(c: Caller): multiset<int>
  {
    if c.Ticketed? then multiset{c.task} else multiset{}
  }

  /** The task ids below `n`, each once. */
  function Below(n: nat): multiset<int>
  {
    if n == 0 then multiset{} else Below(n - 1) + multiset{n - 1}
  }

  lemma {:induction false} BelowCounts(n: nat, t: int)
    ensures Below(n)[t] == if 0 <= t < n then 1 else 0
  {
    if n > 0 {
      BelowCounts(n - 1, t);
    }
  }

  /** Each task id that was drawn has been accepted, or refused, or is in the hands of the
      caller that drew it, and only one of these. */
  ghost predicate TicketsAccountedFor(s: State)
  {
    Collect(s.callers, Drawn) + multiset(s.accepted) + multiset(s.refused) == Below(s.tid)
  }

  /** Nothing is refused before stopped_ is set. */
  ghost predicate RefusedAfterStop(s: State)
  {
    s.refused != [] ==> s.stopped
  }

  ghost predicate CounterExact(s: State)
  {
    s.runningTaskNum == Total(s.workers, Busy)
  }

  predicate Awake(w: Worker)
  {
    !w.Asleep? && !w.Exited?
  }

  /** No wake-up is lost: a queued task has an awake worker or a notify_one to come. */
  ghost predicate WakeupOwed(s: State)
  {
    s.pending != [] && |s.workers| > 0 ==>
      || (exists w :: 0 <= w < |s.workers| && Awake(s.workers[w]))
      || (exists c :: 0 <= c < |s.callers| && s.callers[c].OwesNotify?)
  }

  ghost predicate ShutdownOrdered(s: State)
  {
    && (s.stopped <==> !s.dtor.NotStarted?)
    && (forall w :: 0 <= w < |s.workers| && s.workers[w].Exited? ==> s.stopped && s.pending == [])
    && (s.dtor.Joining? || s.dtor.Returned? ==> NoneAsleep(s))
    && (s.dtor.Joining? ==>
          && s.dtor.next <= |s.workers|
          && (forall w :: 0 <= w < s.dtor.next ==> s.workers[w].Exited?))
    && (s.dtor.Returned? ==> forall w :: 0 <= w < |s.workers| ==> s.workers[w].Exited?)
  }

  ghost predicate Inv(s: State)
  {
    && FirstInFirstOut(s) && TasksAccountedFor(s) && TicketsAccountedFor(s) && RefusedAfterStop(s)
    && CounterExact(s) && WakeupOwed(s) && ShutdownOrdered(s)
  }

  // ------------------------------------------------ every step keeps the invariant

  lemma InitInv(parallelism: nat, callers: nat)
    ensures Inv(Init(parallelism, callers))
  {
    var s := Init(parallelism, callers);
    CollectIsEmpty(s.workers, Holding);
    CollectIsEmpty(s.callers, Drawn);
    TotalIsZero(s.workers, Busy);
  }

  lemma KeepsOrder(s: State, a: Action)
    requires FirstInFirstOut(s) && Enabled(s, a)
    ensures FirstInFirstOut(Apply(s, a))
  {
    match a
    case WorkerLock(w) =>
      if s.pending != [] {
        assert (s.started + [s.pending[0]]) + s.pending[1..] == s.started + s.pending;
      }
    case CallerPush(c) =>
      assert s.started + (s.pending + [s.callers[c].task]) == s.accepted + [s.callers[c].task];
    case _ =>
  }

  lemma KeepsTasks(s: State, a: Action)
    requires TasksAccountedFor(s) && Enabled(s, a)
    ensures TasksAccountedFor(Apply(s, a))
  {
    if a.WorkerRun? {
      RunKeepsTasks(s, a.w);
    } else if a.WorkerLock? && s.pending != [] {
      TakeKeepsTasks(s, a.w);
    } else {
      OthersKeepHands(s, a);
    }
  }

  /** Only taking and running a task change which worker holds what. */
  lemma OthersKeepHands(s: State, a: Action)
    requires Enabled(s, a) && !a.WorkerRun? && (a.WorkerLock? ==> s.pending == [])
    ensures Collect(Apply(s, a).workers, Holding) == Collect(s.workers, Holding)
    ensures Apply(s, a).ran == s.ran && Apply(s, a).started == s.started
  {
    var ws, ws' := s.workers, Apply(s, a).workers;
    forall w | 0 <= w < |ws|
      ensures Holding(ws[w]) == Holding(ws'[w])
    {
      if ws[w].Popped? && ws'[w] != ws[w] {
        assert ws'[w] == Running(ws[w].task);
      } else if ws'[w] != ws[w] {
        assert !ws[w].Running? && !ws'[w].Popped? && !ws'[w].Running?;
      }
    }
    CollectPointwise(ws, ws', Holding);
  }

  lemma TakeKeepsTasks(s: State, w: nat)
    requires TasksAccountedFor(s) && w < |s.workers| && s.workers[w].Ready? && s.pending != []
    ensures TasksAccountedFor(LockAndTake(s, w))
  {
    TaskIsTaken(s.workers, w, s.pending[0], s.started);
    OneHeld(Collect(s.workers, Holding), multiset(s.ran), s.pending[0]);
  }

  lemma TaskIsTaken(workers: seq<Worker>, w: nat, task: TaskId, started: seq<TaskId>)
    requires w < |workers| && workers[w].Ready?
    ensures Collect(workers[w := Popped(task)], Holding) == Collect(workers, Holding) + multiset{task}
    ensures multiset(started + [task]) == multiset(started) + multiset{task}
  {
    CollectUpdate(workers, w, Popped(task), Holding);
  }

  lemma OneHeld(held: multiset<int>, ran: multiset<int>, task: TaskId)
    ensures (held + multiset{task}) + ran == (held + ran) + multiset{task}
  {
  }

  lemma RunKeepsTasks(s: State, w: nat)
    requires TasksAccountedFor(s) && w < |s.workers| && s.workers[w].Running?
    ensures TasksAccountedFor(Apply(s, WorkerRun(w)))
  {
    var task := s.workers[w].task;
    CollectUpdate(s.workers, w, Ran, Holding);
    assert multiset(s.ran + [task]) == multiset(s.ran) + multiset{task};
  }

  lemma KeepsCounter(s: State, a: Action)
    requires CounterExact(s) && Enabled(s, a)
    ensures CounterExact(Apply(s, a))
  {
    match a
    case WorkerBegin(w) => TotalUpdate(s.workers, w, Running(s.workers[w].task), Busy);
    case WorkerEnd(w) => TotalUpdate(s.workers, w, Ready, Busy);
    case _ => TotalPointwise(s.workers, Apply(s, a).workers, Busy);
  }

  lemma KeepsTickets(s: State, a: Action)
    requires TicketsAccountedFor(s) && Enabled(s, a)
    ensures TicketsAccountedFor(Apply(s, a))
  {
    match a
    case CallerTicket(c) => TicketKeepsTickets(s, c);
    case CallerPush(c) => PushKeepsTickets(s, c);
    case CallerCheck(c) => PassKeepsTickets(s, c, Apply(s, a));
    case CallerNotify(c, _) => PassKeepsTickets(s, c, Apply(s, a));
    case _ => assert Apply(s, a).callers == s.callers;
  }

  /** A caller that neither draws nor gives up an id. */
  lemma PassKeepsTickets(s: State, c: nat, s': State)
    requires TicketsAccountedFor(s) && c < |s.callers| && |s'.callers| == |s.callers|
    requires s'.callers == s.callers[c := s'.callers[c]] && !s.callers[c].Ticketed? && !s'.callers[c].Ticketed?
    requires s'.accepted == s.accepted && s'.refused == s.refused && s'.tid == s.tid
    ensures TicketsAccountedFor(s')
  {
    CollectUpdate(s.callers, c, s'.callers[c], Drawn);
  }

  lemma TicketKeepsTickets(s: State, c: nat)
    requires TicketsAccountedFor(s) && Enabled(s, CallerTicket(c))
    ensures TicketsAccountedFor(Apply(s, CallerTicket(c)))
  {
    DrawKeepsTickets(s, c, Apply(s, CallerTicket(c)));
  }

  lemma DrawKeepsTickets(s: State, c: nat, s': State)
    requires TicketsAccountedFor(s) && c < |s.callers| && s.callers[c].Checked?
    requires s'.callers == s.callers[c := Ticketed(s.tid)] && s'.tid == s.tid + 1
    requires s'.accepted == s.accepted && s'.refused == s.refused
    ensures TicketsAccountedFor(s')
  {
    TicketIsDrawn(s.callers, c, s.tid);
    OneMore(Collect(s.callers, Drawn), multiset(s.accepted), multiset(s.refused), s.tid);
  }

  lemma TicketIsDrawn(callers: seq<Caller>, c: nat, t: TaskId)
    requires c < |callers| && !callers[c].Ticketed?
    ensures Collect(callers[c := Ticketed(t)], Drawn) == Collect(callers, Drawn) + multiset{t}
  {
    CollectUpdate(callers, c, Ticketed(t), Drawn);
  }

  lemma OneMore(drawn: multiset<int>, accepted: multiset<int>, refused: multiset<int>, t: nat)
    requires drawn + accepted + refused == Below(t)
    ensures (drawn + multiset{t}) + accepted + refused == Below(t + 1)
  {
  }

  lemma PushKeepsTickets(s: State, c: nat)
    requires TicketsAccountedFor(s) && Enabled(s, CallerPush(c))
    ensures TicketsAccountedFor(Apply(s, CallerPush(c)))
  {
    var task := s.callers[c].task;
    CollectUpdate(s.callers, c, if s.stopped then Idle else OwesNotify, Drawn);
    assert multiset(s.accepted + [task]) == multiset(s.accepted) + multiset{task};
    assert multiset(s.refused + [task]) == multiset(s.refused) + multiset{task};
  }

  lemma KeepsWakeups(s: State, a: Action)
    requires WakeupOwed(s) && ShutdownOrdered(s) && Enabled(s, a)
    ensures WakeupOwed(Apply(s, a))
  {
    var s' := Apply(s, a);
    if s'.pending != [] && |s'.workers| > 0 {
      match a
      case WorkerLock(w) => assert Awake(s'.workers[w]);
      case WorkerBegin(w) => assert Awake(s'.workers[w]);
      case WorkerRun(w) => assert Awake(s'.workers[w]);
      case WorkerEnd(w) => assert Awake(s'.workers[w]);
      case SpuriousWake(w) => assert Awake(s'.workers[w]);
      case CallerPush(c) =>
        if !s.stopped {
          assert s'.callers[c].OwesNotify?;
        } else {
          OtherOwersStay(s, c, Idle);
        }
      case CallerNotify(c, w) =>
        var awake := if w < |s.workers| && s.workers[w].Asleep? then w else 0;
        assert Awake(s'.workers[awake]);
      case CallerCheck(c) => OtherOwersStay(s, c, s'.callers[c]);
      case CallerTicket(c) => OtherOwersStay(s, c, s'.callers[c]);
      case DtorNotifyAll => assert Awake(s'.workers[0]);
      case _ =>
    }
  }

  /** A caller that owes nothing may move without dropping anyone else's debt. */
  lemma OtherOwersStay(s: State, c: nat, pc: Caller)
    requires c < |s.callers| && !s.callers[c].OwesNotify?
    ensures (exists d :: 0 <= d < |s.callers| && s.callers[d].OwesNotify?) ==>
              var callers := s.callers[c := pc];
              exists d :: 0 <= d < |callers| && callers[d].OwesNotify?
  {
    if d :| 0 <= d < |s.callers| && s.callers[d].OwesNotify? {
      assert s.callers[c := pc][d].OwesNotify?;
    }
  }

  lemma KeepsShutdown(s: State, a: Action)
    requires ShutdownOrdered(s) && Enabled(s, a)
    ensures ShutdownOrdered(Apply(s, a))
  {
    match a
    case WorkerLock(w) => TakeKeepsShutdown(s, w);
    case _ =>
  }

  lemma TakeKeepsShutdown(s: State, w: nat)
    requires ShutdownOrdered(s) && w < |s.workers| && s.workers[w].Ready?
    ensures ShutdownOrdered(LockAndTake(s, w))
  {
  }

  lemma StepInv(s: State, a: Action)
    requires Inv(s) && Enabled(s, a)
    ensures Inv(Apply(s, a))
  {
    KeepsOrder(s, a);
    KeepsTasks(s, a);
    KeepsTickets(s, a);
    KeepsCounter(s, a);
    KeepsWakeups(s, a);
    KeepsShutdown(s, a);
  }

  lemma {:induction false} RunInv(from: State, schedule: seq<Action>, to: State)
    requires Inv(from) && Run(from, schedule, to)
    ensures Inv(to)
    decreases |schedule|
  {
    if schedule != [] {
      StepInv(from, schedule[0]);
      RunInv(Apply(from, schedule[0]), schedule[1..], to);
    }
  }

  // ------------------------------------------------------------ safety of runs

  ghost predicate Reachable(parallelism: nat, callers: nat, schedule: seq<Action>, s: State)
  {
    Run(Init(parallelism, callers), schedule, s)
  }

  lemma ReachableInv(parallelism: nat, callers: nat, schedule: seq<Action>, s: State)
    requires Reachable(parallelism, callers, schedule, s)
    ensures Inv(s) && |s.workers| == parallelism
  {
    InitInv(parallelism, callers);
    RunInv(Init(parallelism, callers), schedule, s);
    RunKeepsPoolSize(Init(parallelism, callers), schedule, s);
  }

  lemma {:induction false} RunKeepsPoolSize(from: State, schedule: seq<Action>, to: State)
    requires Run(from, schedule, to)
    ensures |to.workers| == |from.workers|
    ensures from.workers == [] ==> to.ran == from.ran
    decreases |schedule|
  {
    if schedule != [] {
      RunKeepsPoolSize(Apply(from, schedule[0]), schedule[1..], to);
    }
  }

  /** In every interleaving each task id drawn is accepted, refused or still with the caller
      that drew it, exactly one of these, and nothing is refused until the pool is stopped. */
  lemma EachTicketInExactlyOnePlace(parallelism: nat, callers: nat, schedule: seq<Action>, s: State, t: TaskId)
    requires Reachable(parallelism, callers, schedule, s)
    ensures multiset(s.accepted)[t] + multiset(s.refused)[t] + Collect(s.callers, Drawn)[t] == if t < s.tid then 1 else 0
    ensures !s.stopped && t < s.tid ==>
              t in s.accepted || exists c :: 0 <= c < |s.callers| && s.callers[c] == Ticketed(t)
  {
    ReachableInv(parallelism, callers, schedule, s);
    BelowCounts(s.tid, t);
    assert (Collect(s.callers, Drawn) + multiset(s.accepted) + multiset(s.refused))[t] == Below(s.tid)[t];
    if t < s.tid && Collect(s.callers, Drawn)[t] > 0 {
      var c := CollectComesFrom(s.callers, t, Drawn);
      assert s.callers[c] == Ticketed(t);
    }
  }

  /** How often task `t` occurs, over the queue, the workers' hands and the runs. */
  ghost function Copies(s: State, t: TaskId): nat
  {
    multiset(s.pending)[t] + Collect(s.workers, Holding)[t] + multiset(s.ran)[t]
  }

  /** In every interleaving an accepted task is queued once, or held by one worker,
      or has run once, and never two of these; an unaccepted task is nowhere. */
  lemma EachTaskInExactlyOnePlace(parallelism: nat, callers: nat, schedule: seq<Action>, s: State, t: TaskId)
    requires Reachable(parallelism, callers, schedule, s)
    ensures Copies(s, t) == if t in s.accepted then 1 else 0
  {
    ReachableInv(parallelism, callers, schedule, s);
    EachTicketInExactlyOnePlace(parallelism, callers, schedule, s, t);
    assert multiset(s.accepted) == multiset(s.started) + multiset(s.pending);
    assert multiset(s.started)[t] == Collect(s.workers, Holding)[t] + multiset(s.ran)[t];
    assert t in s.accepted <==> multiset(s.accepted)[t] > 0;
  }

  lemma NoTaskHeldTwice(parallelism: nat, callers: nat, schedule: seq<Action>, s: State, v: nat, w: nat)
    requires Reachable(parallelism, callers, schedule, s)
    requires v < w < |s.workers| && (s.workers[v].Popped? || s.workers[v].Running?)
    requires s.workers[w].Popped? || s.workers[w].Running?
    ensures s.workers[v].task != s.workers[w].task
  {
    EachTaskInExactlyOnePlace(parallelism, callers, schedule, s, s.workers[v].task);
    CollectIncludesBoth(s.workers, v, w, Holding);
  }

  /** Once the destructor returns, the runs are exactly the accepted tasks, each
      once, precisely when the pool had a worker or nothing had been accepted. With a
      worker, every task id ever drawn has been run, or was refused, or is still drawn. */
  lemma DestructorRunsEveryTask(parallelism: nat, callers: nat, schedule: seq<Action>, s: State)
    requires Reachable(parallelism, callers, schedule, s) && s.dtor.Returned?
    ensures multiset(s.ran) == multiset(s.accepted) <==> parallelism > 0 || s.accepted == []
    ensures parallelism > 0 ==> s.pending == [] && s.started == s.accepted
    ensures parallelism > 0 ==> Collect(s.callers, Drawn) + multiset(s.ran) + multiset(s.refused) == Below(s.tid)
  {
    ReachableInv(parallelism, callers, schedule, s);
    CollectIsEmpty(s.workers, Holding);
    if parallelism > 0 {
      assert s.workers[0].Exited?;
    } else {
      RunKeepsPoolSize(Init(parallelism, callers), schedule, s);
      if s.accepted != [] {
        assert s.accepted[0] in multiset(s.accepted);
      }
    }
  }

  lemma {:induction false} RunConcat(from: State, a: seq<Action>, mid: State, b: seq<Action>, to: State)
    requires Run(from, a, mid) && Run(mid, b, to)
    ensures Run(from, a + b, to)
    decreases |a|
  {
    if a == [] {
      assert a + b == b;
    } else {
      assert (a + b)[0] == a[0] && (a + b)[1..] == a[1..] + b;
      RunConcat(Apply(from, a[0]), a[1..], mid, b, to);
    }
  }

  lemma {:induction false} HistoriesGrow(from: State, schedule: seq<Action>, to: State)
    requires Run(from, schedule, to)
    ensures from.accepted <= to.accepted && from.refused <= to.refused
    decreases |schedule|
  {
    if schedule != [] {
      HistoriesGrow(Apply(from, schedule[0]), schedule[1..], to);
    }
  }

  /** A task whose caller takes the lock in state `mid` is run by the time the destructor
      has returned, and once, if and only if the pool was not stopped in `mid`. */
  lemma PushedRunsIffNotStopped(parallelism: nat, callers: nat, before: seq<Action>, mid: State, c: nat,
                                after: seq<Action>, s: State)
    requires parallelism > 0 && Reachable(parallelism, callers, before, mid) && Enabled(mid, CallerPush(c))
    requires Run(Apply(mid, CallerPush(c)), after, s) && s.dtor.Returned?
    ensures multiset(s.ran)[mid.callers[c].task] == if mid.stopped then 0 else 1
  {
    var t, pushed := mid.callers[c].task, Apply(mid, CallerPush(c));
    RunCons(mid, CallerPush(c), after, s);
    RunConcat(Init(parallelism, callers), before, mid, [CallerPush(c)] + after, s);
    var schedule := before + ([CallerPush(c)] + after);
    HistoriesGrow(pushed, after, s);
    DestructorRunsEveryTask(parallelism, callers, schedule, s);
    EachTicketInExactlyOnePlace(parallelism, callers, schedule, s, t);
    var history := if mid.stopped then s.refused else s.accepted;
    var earlier := if mid.stopped then pushed.refused else pushed.accepted;
    assert earlier[|earlier| - 1] == t && earlier <= history;
    assert history[|earlier| - 1] == t;
  }

  lemma RunCons(from: State, a: Action, rest: seq<Action>, to: State)
    requires Enabled(from, a) && Run(Apply(from, a), rest, to)
    ensures Run(from, [a] + rest, to)
  {
    assert ([a] + rest)[1..] == rest;
  }

  /** Without workers the destructor finds nothing to wait for. */
  lemma IdleShutdown(s: State) returns (schedule: seq<Action>, end: State)
    requires s.workers == [] && s.dtor.NotStarted? && s.runningTaskNum == 0
    ensures Run(s, schedule, end) && end == s.(stopped := true, dtor := Returned)
  {
    var s1 := Apply(s, DtorStop);
    var s2 := Apply(s1, DtorSpin);
    var s3 := Apply(s2, DtorNotifyAll);
    end := Apply(s3, DtorJoin);
    assert end.workers == [];
    RunCons(s3, DtorJoin, [], end);
    RunCons(s2, DtorNotifyAll, [DtorJoin] + [], end);
    RunCons(s1, DtorSpin, [DtorNotifyAll] + ([DtorJoin] + []), end);
    schedule := [DtorSpin] + ([DtorNotifyAll] + ([DtorJoin] + []));
    RunCons(s, DtorStop, schedule, end);
    schedule := [DtorStop] + schedule;
  }

  /** A pool without workers accepts a task, is destroyed, and has not run it. */
  lemma IdlePoolLosesTask() returns (schedule: seq<Action>, s: State)
    ensures Reachable(0, 1, schedule, s) && s.dtor.Returned? && s.accepted == [0] && s.ran == []
  {
    var s0 := Init(0, 1);
    var s1 := Apply(s0, CallerCheck(0));
    var s2 := Apply(s1, CallerTicket(0));
    var s3 := Apply(s2, CallerPush(0));
    schedule, s := IdleShutdown(s3);
    RunCons(s2, CallerPush(0), schedule, s);
    schedule := [CallerPush(0)] + schedule;
    RunCons(s1, CallerTicket(0), schedule, s);
    schedule := [CallerTicket(0)] + schedule;
    RunCons(s0, CallerCheck(0), schedule, s);
    schedule := [CallerCheck(0)] + schedule;
  }

  /** A queued task never waits for a wake-up nobody will give, and once the
      destructor has notified everyone, no worker sleeps again. */
  lemma NoLostWakeup(parallelism: nat, callers: nat, schedule: seq<Action>, s: State)
    requires Reachable(parallelism, callers, schedule, s) && parallelism > 0
    ensures s.pending != [] ==>
              || (exists w :: 0 <= w < |s.workers| && Awake(s.workers[w]))
              || (exists c :: 0 <= c < |s.callers| && s.callers[c].OwesNotify?)
    ensures s.dtor.Joining? || s.dtor.Returned? ==> NoneAsleep(s)
  {
    ReachableInv(parallelism, callers, schedule, s);
  }

  /** The destructor's spin ends exactly when no worker is inside a task, finished or not. */
  lemma SpinEndsIffNoneRuns(parallelism: nat, callers: nat, schedule: seq<Action>, s: State)
    requires Reachable(parallelism, callers, schedule, s) && s.dtor.Spinning?
    ensures var s' := Apply(s, DtorSpin);
            if forall w :: 0 <= w < |s.workers| ==> !s.workers[w].Running? && !s.workers[w].Ran?
            then s' == s.(dtor := Notifying) else s' == s
  {
    ReachableInv(parallelism, callers, schedule, s);
    TotalIsZero(s.workers, Busy);
    assert forall w :: 0 <= w < |s.workers| ==>
      (Busy(s.workers[w]) == 0 <==> !s.workers[w].Running? && !s.workers[w].Ran?);
  }

  // -------------------------------------------------- the destructor terminates

  function WorkerWeight(w: Worker): nat
  {
    match w
    case Exited => 0
    case Ready => 1
    case Asleep => 2
    case Ran => 2
    case Running(_) => 3
    case Popped(_) => 4
  }

  function CallerWeight(c: Caller): nat
  {
    match c
    case Idle => 0
    case OwesNotify => 1
    case Ticketed(_) => 2
    case Checked => 3
  }

  function DtorWeight(s: State): nat
  {
    match s.dtor
    case NotStarted => |s.workers| + 4
    case Spinning => |s.workers| + 3
    case Notifying => |s.workers| + 2
    case Joining(i) => if i <= |s.workers| then |s.workers| + 1 - i else 0
    case Returned => 0
  }

  /** Bounds the steps left to run once the pool is stopped. */
  function Remaining(s: State): nat
  {
    Total(s.workers, WorkerWeight) + Total(s.callers, CallerWeight) + 5 * |s.pending| + DtorWeight(s)
  }

  /** Every step brings shutdown closer, except a load of the spinning destructor that finds
      a task running, and an `AddTask` that is refused at once; those change nothing. */
  lemma StoppedStepDecreases(s: State, a: Action)
    requires ShutdownOrdered(s) && s.stopped && Enabled(s, a)
    ensures Apply(s, a).stopped
    ensures Remaining(Apply(s, a)) < Remaining(s)
            || (Apply(s, a) == s && ((a.DtorSpin? && s.runningTaskNum > 0) || a.CallerCheck?))
  {
    if a.WorkerLock? || a.WorkerBegin? || a.WorkerRun? || a.WorkerEnd? || a.SpuriousWake? {
      WorkerStepDecreases(s, a);
    } else if a.DtorNotifyAll? {
      WakingLightens(s.workers);
    } else if a.CallerTicket? || a.CallerPush? || a.CallerNotify? {
      CallerStepDecreases(s, a);
    }
  }

  lemma WorkerStepDecreases(s: State, a: Action)
    requires s.stopped && Enabled(s, a)
    requires a.WorkerLock? || a.WorkerBegin? || a.WorkerRun? || a.WorkerEnd? || a.SpuriousWake?
    ensures Remaining(Apply(s, a)) < Remaining(s)
  {
    if a.WorkerLock? {
      TakeDecreases(s, a.w);
    } else {
      TotalUpdate(s.workers, a.w, Apply(s, a).workers[a.w], WorkerWeight);
    }
  }

  lemma TakeDecreases(s: State, w: nat)
    requires s.stopped && w < |s.workers| && s.workers[w].Ready?
    ensures Remaining(LockAndTake(s, w)) < Remaining(s)
  {
    TotalUpdate(s.workers, w, LockAndTake(s, w).workers[w], WorkerWeight);
  }

  lemma CallerStepDecreases(s: State, a: Action)
    requires s.stopped && Enabled(s, a) && (a.CallerTicket? || a.CallerPush? || a.CallerNotify?)
    ensures Remaining(Apply(s, a)) < Remaining(s)
  {
    TotalUpdate(s.callers, a.c, Apply(s, a).callers[a.c], CallerWeight);
    if a.CallerNotify? && a.woken < |s.workers| && s.workers[a.woken].Asleep? {
      TotalUpdate(s.workers, a.woken, Ready, WorkerWeight);
    }
  }

  lemma {:induction false} WakingLightens(ws: seq<Worker>)
    ensures Total(WakeAll(ws), WorkerWeight) <= Total(ws, WorkerWeight)
  {
    if ws != [] {
      assert WakeAll(ws)[1..] == WakeAll(ws[1..]);
      WakingLightens(ws[1..]);
    }
  }

  /** Until the destructor has returned, some thread can move: neither the spin on
      running_task_num_ nor a join can be stuck for good. */
  lemma StoppedCanMove(s: State) returns (a: Action)
    requires Inv(s) && s.stopped && !s.dtor.Returned?
    ensures Enabled(s, a) && Apply(s, a) != s
  {
    if w :| 0 <= w < |s.workers| && Awake(s.workers[w]) {
      var pc := s.workers[w];
      a := if pc.Ready? then WorkerLock(w) else if pc.Popped? then WorkerBegin(w)
           else if pc.Running? then WorkerRun(w) else WorkerEnd(w);
      assert Apply(s, a).workers[w] != s.workers[w];
    } else {
      TotalIsZero(s.workers, Busy);
      a := if s.dtor.Spinning? then DtorSpin else if s.dtor.Notifying? then DtorNotifyAll else DtorJoin;
    }
  }

  /** The steps of a schedule that change the state. */
  function Moves(s: State, schedule: seq<Action>): nat
    decreases |schedule|
  {
    if schedule == [] || !Enabled(s, schedule[0]) then 0
    else (if Apply(s, schedule[0]) == s then 0 else 1) + Moves(Apply(s, schedule[0]), schedule[1..])
  }

  /** A stopped pool moves at most `Remaining` times, in any order the scheduler likes and
      however often the destructor spins: no schedule keeps the threads busy forever. */
  lemma {:induction false} ShutdownIsBounded(from: State, schedule: seq<Action>, to: State)
    requires Inv(from) && from.stopped && Run(from, schedule, to)
    ensures Moves(from, schedule) + Remaining(to) <= Remaining(from)
    decreases |schedule|
  {
    if schedule != [] {
      StepInv(from, schedule[0]);
      StoppedStepDecreases(from, schedule[0]);
      ShutdownIsBounded(Apply(from, schedule[0]), schedule[1..], to);
    }
  }

  /** From every state with stopped_ set, the destructor can be run to its end. */
  lemma {:induction false} DestructorReturns(s: State) returns (schedule: seq<Action>, end: State)
    requires Inv(s) && s.stopped
    ensures Run(s, schedule, end) && end.dtor.Returned?
    decreases Remaining(s)
  {
    if s.dtor.Returned? {
      return [], s;
    }
    var a := StoppedCanMove(s);
    StepInv(s, a);
    StoppedStepDecreases(s, a);
    var rest;
    rest, end := DestructorReturns(Apply(s, a));
    schedule := [a] + rest;
    assert schedule[1..] == rest;
  }
}
