/** The worker pool of code/pool/thread_pool.h, with any number of workers.  A step is one stretch
    of code between two releases of the pool's mutex, or one signal on its condition variable. */
module ThreadPools {
  import opened Counting

  type TaskId = nat

  /** Ready: about to take the mutex.  Waiting: blocked in cond.wait. */
  datatype Worker = Ready | Running(task: TaskId) | Waiting | Exited

  /** `notifies` counts tasks added whose notify_one is still to come, and `notifyAll` is the
      destructor's.  `added` and `started` list all tasks ever queued and taken, in order. */
  datatype State = State(workers: seq<Worker>, tasks: seq<TaskId>, isClosed: bool, notifies: nat, notifyAll: bool,
                         added: seq<TaskId>, started: seq<TaskId>, finished: multiset<TaskId>)

  datatype Event =
    | AddTask(task: TaskId)       // AddTask's locked part
    | NotifyOne(w: nat)           // its notify_one wakes worker w
    | NotifyNobody                // ... or finds nobody waiting
    | Enter(w: nat)               // a worker takes the mutex and runs until it gives it up
    | Complete(w: nat)            // a worker's task returns
    | Spurious(w: nat)            // cond.wait returns without a notification
    | Close                       // the destructor's locked part
    | NotifyAll                   // its notify_all

  function StartState(n: nat): State {
    State(seq(n, _ => Ready), [], false, 0, false, [], [], multiset{})
  }

  predicate IsWaiting(s: State, w: nat) { w < |s.workers| && s.workers[w] == Waiting }

  predicate NobodyWaits(s: State) { forall w | 0 <= w < |s.workers| :: s.workers[w] != Waiting }

  predicate AllExited(s: State) { forall w | 0 <= w < |s.workers| :: s.workers[w] == Exited }

  predicate Enabled(s: State, e: Event) {
    match e
    case AddTask(_) => true
    case NotifyOne(w) => s.notifies > 0 && IsWaiting(s, w)
    case NotifyNobody => s.notifies > 0 && NobodyWaits(s)
    case Enter(w) => w < |s.workers| && s.workers[w] == Ready
    case Complete(w) => w < |s.workers| && s.workers[w].Running?
    case Spurious(w) => IsWaiting(s, w)
    case Close => !s.isClosed
    case NotifyAll => s.notifyAll
  }

  /** The body of the worker's loop from one acquisition of the mutex to the next release. */
  function EnterStep(s: State, w: nat): State
    requires w < |s.workers|
  {
    if s.tasks != [] then
      s.(tasks := s.tasks[1..], workers := s.workers[w := Running(s.tasks[0])], started := s.started + [s.tasks[0]])
    else if s.isClosed then s.(workers := s.workers[w := Exited])
    else s.(workers := s.workers[w := Waiting])
  }

  function Woken(workers: seq<Worker>): (r: seq<Worker>)
    ensures |r| == |workers|
    ensures forall w | 0 <= w < |workers| :: r[w] == if workers[w] == Waiting then Ready else workers[w]
  {
    if workers == [] then [] else [if workers[0] == Waiting then Ready else workers[0]] + Woken(workers[1..])
  }

  function Next(s: State, e: Event): State
    requires Enabled(s, e)
  {
    match e
    case AddTask(t) => s.(tasks := s.tasks + [t], added := s.added + [t], notifies := s.notifies + 1)
    case NotifyOne(w) => s.(notifies := s.notifies - 1, workers := s.workers[w := Ready])
    case NotifyNobody => s.(notifies := s.notifies - 1)
    case Enter(w) => EnterStep(s, w)
    case Complete(w) =>
      s.(workers := s.workers[w := Ready], finished := s.finished + multiset{s.workers[w].task})
    case Spurious(w) => s.(workers := s.workers[w := Ready])
    case Close => s.(isClosed := true, notifyAll := true)
    case NotifyAll => s.(notifyAll := false, workers := Woken(s.workers))
  }

  // ---------- What every run keeps ----------

  function ReadyBit(): Worker -> nat { (w: Worker) => Bit(w == Ready) }

  function RunningBit(t: TaskId): Worker -> nat { (w: Worker) => Bit(w == Running(t)) }

  function ReadyCount(workers: seq<Worker>): nat { Sum(workers, ReadyBit()) }

  function RunningCount(workers: seq<Worker>, t: TaskId): nat { Sum(workers, RunningBit(t)) }

  /** No lost wake-up, in its full strength: while some worker sleeps, every queued task is
      matched by a worker on its way to the queue or a notification still to come. */
  ghost predicate NoLostWakeUp(s: State) { NobodyWaits(s) || |s.tasks| <= s.notifies + ReadyCount(s.workers) }

  /** First in, first out, and every started task is either running or finished, exactly once. */
  ghost predicate TasksConserved(s: State) {
    && s.added == s.started + s.tasks
    && forall t :: multiset(s.started)[t] == s.finished[t] + RunningCount(s.workers, t)
  }

  ghost predicate ShutdownOrder(s: State) {
    && (s.notifyAll ==> s.isClosed)
    && (s.isClosed && !s.notifyAll ==> NobodyWaits(s))
    && (!s.isClosed ==> forall w | 0 <= w < |s.workers| :: s.workers[w] != Exited)
  }

  ghost predicate NothingStranded(s: State) { AllExited(s) ==> s.tasks == [] }

  ghost predicate Inv(s: State) {
    s.workers != [] && NoLostWakeUp(s) && TasksConserved(s) && ShutdownOrder(s) && NothingStranded(s)
  }

  lemma {:induction false} WokenCounts(workers: seq<Worker>, t: TaskId)
    ensures Sum(Woken(workers), RunningBit(t)) == Sum(workers, RunningBit(t))
  {
    if workers != [] { WokenCounts(workers[1..], t); }
  }

  /** Changing worker `w` to `x`. */
  lemma Recount(s: State, w: nat, x: Worker, t: TaskId)
    requires w < |s.workers|
    ensures var s1 := s.(workers := s.workers[w := x]);
            && ReadyCount(s1.workers) + Bit(s.workers[w] == Ready) == ReadyCount(s.workers) + Bit(x == Ready)
            && RunningCount(s1.workers, t) + Bit(s.workers[w] == Running(t))
               == RunningCount(s.workers, t) + Bit(x == Running(t))
  {
    SumUpdate(s.workers, w, x, ReadyBit());
    SumUpdate(s.workers, w, x, RunningBit(t));
  }

  lemma WakeUpsKept(s: State, e: Event)
    requires Inv(s) && Enabled(s, e)
    ensures NoLostWakeUp(Next(s, e))
  {
    var s1 := Next(s, e);
    match e
    case AddTask(_) =>
    case NotifyOne(w) => Recount(s, w, Ready, 0);
    case NotifyNobody =>
    case Enter(w) =>
      Recount(s, w, s1.workers[w], 0);
      if s.tasks != [] && !NobodyWaits(s1) {
        var x :| 0 <= x < |s1.workers| && s1.workers[x] == Waiting;
        assert s.workers[x] == Waiting;
      }
    case Complete(w) =>
      Recount(s, w, Ready, 0);
      if !NobodyWaits(s1) {
        var x :| 0 <= x < |s1.workers| && s1.workers[x] == Waiting;
        assert s.workers[x] == Waiting;
      }
    case Spurious(w) => Recount(s, w, Ready, 0);
    case Close =>
    case NotifyAll =>
  }

  lemma QueueKept(s: State, e: Event)
    requires TasksConserved(s) && Enabled(s, e)
    ensures Next(s, e).added == Next(s, e).started + Next(s, e).tasks
  {
    if e.Enter? && s.tasks != [] { assert s.tasks == [s.tasks[0]] + s.tasks[1..]; }
  }

  lemma TaskCountKept(s: State, e: Event, t: TaskId)
    requires TasksConserved(s) && Enabled(s, e)
    ensures var s1 := Next(s, e); multiset(s1.started)[t] == s1.finished[t] + RunningCount(s1.workers, t)
  {
    hide RunningCount, ReadyCount;
    assert multiset(s.started)[t] == s.finished[t] + RunningCount(s.workers, t);
    var s1 := Next(s, e);
    match e
    case NotifyOne(w) => Recount(s, w, Ready, t);
    case Enter(w) => Recount(s, w, s1.workers[w], t);
    case Complete(w) => Recount(s, w, Ready, t);
    case Spurious(w) => Recount(s, w, Ready, t);
    case NotifyAll => WokenRunning(s, t);
    case _ =>
  }

  lemma WokenRunning(s: State, t: TaskId)
    requires s.notifyAll
    ensures RunningCount(Next(s, NotifyAll).workers, t) == RunningCount(s.workers, t)
  {
    WokenCounts(s.workers, t);
  }

  lemma TasksKept(s: State, e: Event)
    requires TasksConserved(s) && Enabled(s, e)
    ensures TasksConserved(Next(s, e))
  {
    hide Next, Enabled, RunningCount;
    QueueKept(s, e);
    forall t
      ensures var s1 := Next(s, e); multiset(s1.started)[t] == s1.finished[t] + RunningCount(s1.workers, t)
    {
      TaskCountKept(s, e, t);
    }
  }

  lemma ShutdownKept(s: State, e: Event)
    requires ShutdownOrder(s) && Enabled(s, e)
    ensures ShutdownOrder(Next(s, e))
  {
  }

  lemma StrandedIff(s: State, e: Event)
    requires NothingStranded(s) && s.workers != [] && Enabled(s, e)
    ensures NothingStranded(Next(s, e)) <==> !(e.AddTask? && AllExited(s))
  {
    var s1 := Next(s, e);
    if e.AddTask? {
      assert s1.tasks != [] && (AllExited(s1) <==> AllExited(s));
    } else if e.Enter? {
      assert s1.workers[e.w] == Exited ==> s.tasks == [];
    } else if e.NotifyOne? || e.Complete? || e.Spurious? {
      assert s1.workers[e.w] == Ready;
    } else if e.NotifyAll? {
      assert forall w | 0 <= w < |s.workers| :: s1.workers[w] == Exited <==> s.workers[w] == Exited;
    }
  }

  /** Every step keeps the invariants, except adding a task after the last worker has left. */
  lemma StepKeepsInvIff(s: State, e: Event)
    requires Inv(s) && Enabled(s, e)
    ensures Inv(Next(s, e)) <==> !(e.AddTask? && AllExited(s))
  {
    WakeUpsKept(s, e);
    TasksKept(s, e);
    ShutdownKept(s, e);
    StrandedIff(s, e);
    assert |Next(s, e).workers| == |s.workers|;
    hide Next, Enabled, NoLostWakeUp, TasksConserved, ShutdownOrder, NothingStranded, AllExited;
  }

  lemma NothingRuns(n: nat)
    ensures TasksConserved(StartState(n))
  {
    var s := StartState(n);
    forall t
      ensures RunningCount(s.workers, t) == 0
    {
      SumIsZero(s.workers, RunningBit(t));
    }
  }

  lemma StartIsFine(n: nat)
    requires n > 0
    ensures Inv(StartState(n))
  {
    NothingRuns(n);
    assert StartState(n).workers[0] == Ready;
  }

  /** With a task queued, some worker is awake or a notification is on its way. */
  lemma QueuedTaskIsNoticed(s: State)
    requires Inv(s) && s.tasks != []
    ensures s.notifies > 0 || exists w | 0 <= w < |s.workers| :: s.workers[w] == Ready || s.workers[w].Running?
  {
    if s.notifies == 0 {
      if NobodyWaits(s) {
        var w :| 0 <= w < |s.workers| && s.workers[w] != Exited;
        assert s.workers[w] == Ready || s.workers[w].Running?;
      } else {
        var w := SumPositive(s.workers, ReadyBit());
        assert s.workers[w] == Ready;
      }
    }
  }

  // ---------- Shutdown ----------

  function WorkerWeight(): Worker -> nat {
    (w: Worker) => match w case Exited => 0 case Ready => 1 case Running(_) => 2 case Waiting => 2
  }

  /** Bounds the steps left once the pool is closed. */
  function Work(s: State): nat {
    2 * |s.tasks| + Sum(s.workers, WorkerWeight()) + s.notifies + Bit(s.notifyAll)
  }

  lemma {:induction false} WokenWeight(workers: seq<Worker>)
    ensures Sum(Woken(workers), WorkerWeight()) <= Sum(workers, WorkerWeight())
  {
    if workers != [] { WokenWeight(workers[1..]); }
  }

  lemma ShutdownStep(s: State, e: Event)
    requires Inv(s) && s.isClosed && Enabled(s, e) && !e.AddTask?
    ensures Next(s, e).isClosed && Work(Next(s, e)) < Work(s)
  {
    var s1 := Next(s, e);
    match e
    case NotifyOne(w) => SumUpdate(s.workers, w, Ready, WorkerWeight());
    case Enter(w) => SumUpdate(s.workers, w, s1.workers[w], WorkerWeight());
    case Complete(w) => SumUpdate(s.workers, w, Ready, WorkerWeight());
    case Spurious(w) => SumUpdate(s.workers, w, Ready, WorkerWeight());
    case NotifyAll => WokenWeight(s.workers);
    case _ =>
  }

  /** A closed pool whose workers have not all left can always take a step. */
  lemma ShutdownNotStuck(s: State) returns (e: Event)
    requires Inv(s) && s.isClosed && !AllExited(s)
    ensures Enabled(s, e) && !e.AddTask?
  {
    if s.notifyAll { return NotifyAll; }
    var w :| 0 <= w < |s.workers| && s.workers[w] != Exited;
    e := if s.workers[w] == Ready then Enter(w) else Complete(w);
  }

  // ---------- An open pool left alone ----------

  function LeftToDo(): Worker -> nat {
    (w: Worker) => match w case Exited => 0 case Waiting => 0 case Ready => 1 case Running(_) => 2
  }

  /** Bounds the steps a pool can take on its own. */
  function Backlog(s: State): nat { 2 * |s.tasks| + 2 * s.notifies + Sum(s.workers, LeftToDo()) }

  /** Steps the pool takes without anybody adding, closing, or waking it for nothing. */
  predicate Working(s: State, e: Event) {
    Enabled(s, e) && (e.NotifyOne? || e.NotifyNobody? || e.Enter? || e.Complete?)
  }

  lemma WorkingStepsProgress(s: State, e: Event)
    requires Working(s, e)
    ensures Backlog(Next(s, e)) < Backlog(s) && Next(s, e).added == s.added
  {
    if !e.NotifyNobody? { SumUpdate(s.workers, e.w, Next(s, e).workers[e.w], LeftToDo()); }
  }

  /** When a pool has nothing left to do on its own, every task added has run exactly once. */
  lemma IdleIsDone(s: State)
    requires Inv(s) && forall e :: !Working(s, e)
    ensures s.tasks == [] && s.started == s.added && s.finished == multiset(s.added)
  {
    if s.notifies > 0 {
      if !NobodyWaits(s) {
        var w :| 0 <= w < |s.workers| && s.workers[w] == Waiting;
        assert Working(s, NotifyOne(w));
      } else {
        assert Working(s, NotifyNobody);
      }
    }
    forall w | 0 <= w < |s.workers|
      ensures s.workers[w] == Waiting || s.workers[w] == Exited
    {
      assert !Working(s, Enter(w)) && !Working(s, Complete(w));
    }
    SumIsZero(s.workers, ReadyBit());
    forall t
      ensures s.finished[t] == multiset(s.started)[t]
    {
      SumIsZero(s.workers, RunningBit(t));
    }
    assert s.tasks == [];
    assert s.started + [] == s.started;
  }

  // ---------- Whole runs ----------

  ghost predicate Legal(s: State, run: seq<Event>)
    decreases |run|
  {
    run == [] || (Enabled(s, run[0]) && Legal(Next(s, run[0]), run[1..]))
  }

  ghost function After(s: State, run: seq<Event>): State
    requires Legal(s, run)
    decreases |run|
  {
    if run == [] then s else After(Next(s, run[0]), run[1..])
  }

  /** Tasks are added only while some worker has not left. */
  ghost predicate NoLateTask(s: State, run: seq<Event>)
    requires Legal(s, run)
    decreases |run|
  {
    run == [] || (!(run[0].AddTask? && AllExited(s)) && NoLateTask(Next(s, run[0]), run[1..]))
  }

  lemma {:induction false} RunKeepsInv(s: State, run: seq<Event>)
    requires Inv(s) && Legal(s, run) && NoLateTask(s, run)
    ensures Inv(After(s, run))
    decreases |run|
  {
    if run != [] {
      StepKeepsInvIff(s, run[0]);
      RunKeepsInv(Next(s, run[0]), run[1..]);
    }
  }

  /** The tasks a run adds, in order. */
  function AddedBy(run: seq<Event>): seq<TaskId> {
    if run == [] then [] else (if run[0].AddTask? then [run[0].task] else []) + AddedBy(run[1..])
  }

  lemma {:induction false} RunAdds(s: State, run: seq<Event>)
    requires TasksConserved(s) && Legal(s, run)
    ensures After(s, run).added == s.added + AddedBy(run) && TasksConserved(After(s, run))
    decreases |run|
  {
    hide TasksConserved, Enabled;
    if run != [] {
      var s1 := Next(s, run[0]);
      TasksKept(s, run[0]);
      assert s1.added == s.added + if run[0].AddTask? then [run[0].task] else [];
      hide Next;
      RunAdds(s1, run[1..]);
    }
  }

  /** On every run of any number of workers, late tasks or not, the tasks taken are the first of
      those the run added, in its order, and each was taken once: it is running or has finished. */
  lemma TakenInOrder(n: nat, run: seq<Event>)
    requires Legal(StartState(n), run)
    ensures var s := After(StartState(n), run);
            && s.started + s.tasks == AddedBy(run)
            && forall t :: multiset(s.started)[t] == s.finished[t] + RunningCount(s.workers, t)
  {
    NothingRuns(n);
    RunAdds(StartState(n), run);
  }

  ghost predicate Final(s: State) { forall e :: Enabled(s, e) ==> e.AddTask? }

  ghost predicate Works(s: State, run: seq<Event>)
    decreases |run|
  {
    run == [] || (Working(s, run[0]) && Works(Next(s, run[0]), run[1..]))
  }

  /** Left alone, open or closed, a pool finishes every added task within a bounded number of
      steps. */
  lemma {:induction false} PoolCompletes(s: State, run: seq<Event>)
    requires Inv(s) && Works(s, run)
    ensures Legal(s, run) && |run| <= Backlog(s)
    ensures var t := After(s, run);
            && t.added == s.added
            && ((forall e :: !Working(t, e)) ==> t.tasks == [] && t.finished == multiset(s.added))
    decreases |run|
  {
    hide Inv, Next, Backlog, Enabled;
    if run == [] {
      if forall e :: !Working(s, e) { IdleIsDone(s); }
    } else {
      WorkingStepsProgress(s, run[0]);
      StepKeepsInvIff(s, run[0]);
      PoolCompletes(Next(s, run[0]), run[1..]);
    }
  }

  /** Once the pool is closed and nothing more is added, every run is finite, and when it can go no
      further all workers have left and every task ever added has run exactly once. */
  lemma {:induction false} ShutdownCompletes(s: State, run: seq<Event>)
    requires Inv(s) && s.isClosed && Legal(s, run) && forall i | 0 <= i < |run| :: !run[i].AddTask?
    ensures |run| <= Work(s) && After(s, run).added == s.added
    ensures var t := After(s, run);
            Final(t) ==> AllExited(t) && t.tasks == [] && t.started == s.added && t.finished == multiset(s.added)
    decreases |run|
  {
    if run == [] {
      if Final(s) {
        if !AllExited(s) {
          var e := ShutdownNotStuck(s);
          assert false;
        }
        AllDone(s);
      }
    } else {
      ShutdownStep(s, run[0]);
      StepKeepsInvIff(s, run[0]);
      assert forall i | 0 <= i < |run[1..]| :: run[1..][i] == run[i + 1];
      ShutdownCompletes(Next(s, run[0]), run[1..]);
    }
  }

  lemma AllDone(s: State)
    requires Inv(s) && AllExited(s)
    ensures s.tasks == [] && s.started == s.added && s.finished == multiset(s.added)
  {
    forall t
      ensures s.finished[t] == multiset(s.added)[t]
    {
      SumIsZero(s.workers, RunningBit(t));
      assert s.started == s.added;
    }
  }

  /** Once the workers have left, no run starts anything: what is queued then stays queued. */
  lemma {:induction false} StrandedForGood(s: State, run: seq<Event>)
    requires AllExited(s) && Legal(s, run)
    ensures var t := After(s, run); AllExited(t) && t.started == s.started && s.tasks <= t.tasks
    decreases |run|
  {
    if run != [] {
      var s1 := Next(s, run[0]);
      assert AllExited(s1) && s1.started == s.started && s.tasks <= s1.tasks;
      StrandedForGood(s1, run[1..]);
    }
  }

  /** A closed pool that can go no further has started every task it was given exactly when none was
      added after the last worker had left. */
  lemma {:induction false} NothingLostIff(s: State, run: seq<Event>)
    requires Inv(s) && Legal(s, run) && After(s, run).isClosed && Final(After(s, run))
    ensures After(s, run).tasks == [] <==> NoLateTask(s, run)
    ensures NoLateTask(s, run) ==> After(s, run).finished == multiset(After(s, run).added)
    decreases |run|
  {
    hide Next, Enabled, NoLostWakeUp, TasksConserved, ShutdownOrder;
    if run == [] {
      if !AllExited(s) {
        var e := ShutdownNotStuck(s);
        assert false;
      }
      AllDone(s);
    } else {
      StepKeepsInvIff(s, run[0]);
      var s1 := Next(s, run[0]);
      if run[0].AddTask? && AllExited(s) {
        LateStep(s, run[0].task);
        StrandedForGood(s1, run[1..]);
      } else {
        NothingLostIff(s1, run[1..]);
      }
    }
  }

  lemma LateStep(s: State, task: TaskId)
    requires AllExited(s)
    ensures AllExited(Next(s, AddTask(task))) && Next(s, AddTask(task)).tasks != []
  {
  }

  /** The exception is real: a task added after the workers have left never runs. */
  lemma LateTaskNeverRuns(t: TaskId)
    ensures var run := [Close] + ([Enter(0)] + ([AddTask(t)] + []));
            Legal(StartState(1), run)
            && var s := After(StartState(1), run);
               AllExited(s) && s.tasks == [t] && forall w :: !Enabled(s, Enter(w))
  {
    var s0 := StartState(1);
    var s1 := Next(s0, Close);
    var s2 := Next(s1, Enter(0));
    var s3 := Next(s2, AddTask(t));
    assert s0.workers == [Ready] && s2.workers == [Exited];
    Prepend(s2, AddTask(t), []);
    Prepend(s1, Enter(0), [AddTask(t)] + []);
    Prepend(s0, Close, [Enter(0)] + ([AddTask(t)] + []));
  }

  lemma Prepend(s: State, e: Event, rest: seq<Event>)
    requires Enabled(s, e) && Legal(Next(s, e), rest)
    ensures Legal(s, [e] + rest) && After(s, [e] + rest) == After(Next(s, e), rest)
  {
    assert ([e] + rest)[1..] == rest;
    hide Next, Enabled;
  }

  // ---------- The pool object ----------

  class ThreadPool {
    var workers: seq<Worker>
    var tasks: seq<TaskId>
    var isClosed: bool
    ghost var notifies: nat
    ghost var notifyAll: bool
    ghost var added: seq<TaskId>
    ghost var started: seq<TaskId>
    ghost var finished: multiset<TaskId>

    ghost function Snapshot(): State
      reads this
    {
      State(workers, tasks, isClosed, notifies, notifyAll, added, started, finished)
    }

    constructor (threadCount: nat)
      requires threadCount > 0
      ensures Inv(Snapshot()) && |workers| == threadCount && tasks == []
    {
      workers := seq(threadCount, _ => Ready);
      tasks, isClosed := [], false;
      notifies, notifyAll, added, started, finished := 0, false, [], [], multiset{};
      new;
      StartIsFine(threadCount);
      assert workers == StartState(threadCount).workers;
    }

    /** Queues a task; its notification follows once the mutex is released. */
    method Push(task: TaskId)
      requires Inv(Snapshot()) && !AllExited(Snapshot())
      modifies this
      ensures Inv(Snapshot()) && Snapshot() == Next(old(Snapshot()), AddTask(task))
    {
      StepKeepsInvIff(Snapshot(), AddTask(task));
      tasks := tasks + [task];
      added := added + [task];
      notifies := notifies + 1;
    }

    /** One pass of the worker loop under the mutex: take a task, leave, or wait. */
    method LoopOnce(w: nat)
      requires Inv(Snapshot()) && w < |workers| && workers[w] == Ready
      modifies this
      ensures Inv(Snapshot()) && Snapshot() == Next(old(Snapshot()), Enter(w))
      ensures workers[w] == Exited ==> old(tasks) == [] && isClosed
    {
      StepKeepsInvIff(Snapshot(), Enter(w));
      hide Inv;
      if tasks != [] {
        var task := tasks[0];
        tasks := tasks[1..];
        workers := workers[w := Running(task)];
        started := started + [task];
      } else if isClosed {
        workers := workers[w := Exited];
      } else {
        workers := workers[w := Waiting];
      }
    }

    /** The locked part of the destructor. */
    method Shut()
      requires Inv(Snapshot()) && !isClosed
      modifies this
      ensures Inv(Snapshot()) && Snapshot() == Next(old(Snapshot()), Close)
    {
      StepKeepsInvIff(Snapshot(), Close);
      isClosed := true;
      notifyAll := true;
    }
  }
}
