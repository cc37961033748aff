/** The connection protocol of code/server/web_server.cpp as a step system.  Every handler of the
    main loop, every timer callback and every end of a worker's task is one step, and steps of
    the main thread and the workers interleave freely. */
module ServerProtocol {
  import opened TimerHeap
  import opened HttpConns
  import opened Counting

  const MAX_FD := 65536

  /** One entry of w_users: HttpConn's descriptor and isClose flag. */
  datatype Conn = Conn(fd: int, isClose: bool)

  datatype Interest = WantIn | WantOut | Disarmed

  datatype Flag = EpollIn | EpollOut | EpollRdHup | EpollHup | EpollErr

  /** One entry of the array epoll_wait filled. */
  datatype Ready = Ready(fd: int, flags: set<Flag>)

  datatype Kind = ReadTask | WriteTask

  datatype Task = Task(fd: int, kind: Kind)

  /** `epoll` holds the registered descriptors, `batch` the delivered events not yet handled, and
      `tasks` what is queued or running in the pool.  `now` is the latest clock reading. */
  datatype State = State(users: map<int, Conn>, epoll: map<int, Interest>, batch: seq<Ready>,
                         tasks: multiset<Task>, timer: map<int, int>, now: int, userCount: int)

  /** `timeoutMs` is w_timeoutMs: the timer is used only when it is positive. */
  datatype Config = Config(timeoutMs: int)

  const INITIAL := State(map[], map[], [], multiset{}, map[], 0, 0)

  // ---------- Handlers ----------

  function Close(s: State, fd: int): State
    requires fd in s.users
  {
    var client := s.users[fd];
    var s1 := s.(epoll := s.epoll - {client.fd});
    if client.isClose then s1
    else s1.(users := s.users[fd := client.(isClose := true)], userCount := s.userCount - 1)
  }

  function Open(c: Config, s: State, fd: int, now: int): State {
    s.(users := s.users[fd := Conn(fd, false)], userCount := s.userCount + 1,
       timer := if c.timeoutMs > 0 then s.timer[fd := Deadline(now, c.timeoutMs)] else s.timer,
       epoll := s.epoll[fd := WantIn], now := now)
  }

  function Extend(c: Config, s: State, fd: int, now: int): State {
    s.(timer := if c.timeoutMs > 0 then s.timer[fd := Deadline(now, c.timeoutMs)] else s.timer, now := now)
  }

  predicate HangsUp(flags: set<Flag>) { EpollRdHup in flags || EpollHup in flags || EpollErr in flags }

  function Handle(c: Config, s: State, now: int): State
    requires s.batch != [] && s.batch[0].fd in s.users
  {
    var r := s.batch[0];
    var s1 := s.(batch := s.batch[1..], now := now);
    if HangsUp(r.flags) then Close(s1, r.fd)
    else if EpollIn in r.flags then
      var s2 := Extend(c, s1, s.users[r.fd].fd, now);
      s2.(tasks := s2.tasks + multiset{Task(r.fd, ReadTask)})
    else if EpollOut in r.flags then
      var s2 := Extend(c, s1, s.users[r.fd].fd, now);
      s2.(tasks := s2.tasks + multiset{Task(r.fd, WriteTask)})
    else s1
  }

  /** `epoll_ctl(EPOLL_CTL_MOD)` has no effect on an unregistered descriptor. */
  function Arm(s: State, fd: int, want: Interest): State {
    if fd in s.epoll then s.(epoll := s.epoll[fd := want]) else s
  }

  function End(s: State, t: Task, action: Action): State
    requires t.fd in s.users
  {
    var s1 := s.(tasks := s.tasks - multiset{t});
    match action
    case CloseIt => Close(s1, t.fd)
    case ArmRead => Arm(s1, s.users[t.fd].fd, WantIn)
    case ArmWrite => Arm(s1, s.users[t.fd].fd, WantOut)
  }

  // ---------- Steps ----------

  datatype Event =
    | Accept(fd: int, now: int)                 // a new connection, not refused as one too many
    | Deliver(ready: seq<Ready>)                // epoll_wait returns
    | Dispatch(now: int)                        // the main loop handles the next delivered event
    | Fire(fd: int, now: int)                   // a tick releases one node
    | Finish(task: Task, action: Action)        // a worker's task ends

  /** What epoll may report for a descriptor that is armed for `want`. */
  predicate Reportable(want: Interest, flags: set<Flag>) {
    && flags != {} && want != Disarmed
    && flags <= {EpollRdHup, EpollHup, EpollErr} + (if want == WantIn then {EpollIn} else {EpollOut})
  }

  /** When the kernel, the clock and the code let a step happen. */
  predicate Enabled(c: Config, s: State, e: Event) {
    match e
    case Accept(fd, now) =>
      fd > 0 && (fd in s.users ==> s.users[fd].isClose) && s.userCount < MAX_FD && now >= s.now
    case Deliver(ready) =>
      && s.batch == []
      && (forall i | 0 <= i < |ready| :: ready[i].fd in s.epoll && Reportable(s.epoll[ready[i].fd], ready[i].flags))
      && (forall i, j | 0 <= i < j < |ready| :: ready[i].fd != ready[j].fd)
    case Dispatch(now) => s.batch != [] && s.batch[0].fd in s.users && now >= s.now
    case Fire(fd, now) =>
      s.batch == [] && c.timeoutMs > 0 && fd in s.timer && fd in s.users && Due(s.timer[fd], now) && now >= s.now
    case Finish(t, _) => t in s.tasks && t.fd in s.users
  }

  function Fds(batch: seq<Ready>): seq<int> { seq(|batch|, i requires 0 <= i < |batch| => batch[i].fd) }

  function Next(c: Config, s: State, e: Event): State
    requires Enabled(c, s, e)
  {
    match e
    case Accept(fd, now) => Open(c, s, fd, now)
    case Deliver(ready) =>
      s.(batch := ready, epoll := map fd | fd in s.epoll :: if fd in Fds(ready) then Disarmed else s.epoll[fd])
    case Dispatch(now) => Handle(c, s, now)
    case Fire(fd, now) => var s1 := Close(s, fd); s1.(timer := s1.timer - {fd}, now := now)
    case Finish(t, action) => End(s, t, action)
  }

  // ---------- What every run keeps ----------

  ghost function OpenFds(users: map<int, Conn>): set<int> {
    set fd | fd in users && !users[fd].isClose
  }

  /** Descriptors and the user count agree. */
  ghost predicate Counted(s: State) {
    && (forall fd | fd in s.users :: s.users[fd].fd == fd)
    && s.epoll.Keys == OpenFds(s.users)
    && s.userCount == |OpenFds(s.users)| <= MAX_FD
  }

  /** Nothing refers to a descriptor w_users does not know. */
  ghost predicate Known(s: State) {
    && (forall i | 0 <= i < |s.batch| :: s.batch[i].fd in s.users && s.batch[i].flags != {})
    && (forall t | t in s.tasks :: t.fd in s.users)
    && (forall fd | fd in s.timer :: fd in s.users)
  }

  /** With the timer in use, whatever can be extended has a node, and no deadline is too late. */
  ghost predicate Timed(c: Config, s: State) {
    && (c.timeoutMs > 0 ==> forall fd | fd in s.epoll :: fd in s.timer)
    && (c.timeoutMs > 0 ==> forall i | 0 <= i < |s.batch| :: s.batch[i].fd in s.timer)
    && (forall fd | fd in s.timer :: s.timer[fd] <= Deadline(s.now, c.timeoutMs))
  }

  ghost predicate Safe(c: Config, s: State) { Counted(s) && Known(s) && Timed(c, s) }

  lemma CloseIsSafe(c: Config, s: State, fd: int)
    requires Safe(c, s) && fd in s.users
    ensures Safe(c, Close(s, fd))
  {
    var s1 := Close(s, fd);
    assert OpenFds(s1.users) == OpenFds(s.users) - {fd};
  }

  lemma OpenIsCounted(c: Config, s: State, fd: int, now: int)
    requires Counted(s) && Enabled(c, s, Accept(fd, now))
    ensures Counted(Open(c, s, fd, now))
  {
    assert OpenFds(Open(c, s, fd, now).users) == OpenFds(s.users) + {fd};
  }

  lemma ExtendIsSafe(c: Config, s: State, fd: int, now: int)
    requires Safe(c, s) && now >= s.now && fd in s.users
    ensures Safe(c, Extend(c, s, fd, now)) && Extend(c, s, fd, now).users == s.users
  {
  }

  lemma OpenIsSafe(c: Config, s: State, fd: int, now: int)
    requires Safe(c, s) && Enabled(c, s, Accept(fd, now))
    ensures Safe(c, Open(c, s, fd, now))
  {
    OpenIsCounted(c, s, fd, now);
    assert Known(Open(c, s, fd, now));
    hide Counted, Known;
  }

  lemma HandleIsSafe(c: Config, s: State, now: int)
    requires Safe(c, s) && Enabled(c, s, Dispatch(now))
    ensures Safe(c, Handle(c, s, now))
  {
    var r := s.batch[0];
    var s1 := s.(batch := s.batch[1..], now := now);
    assert Safe(c, s1) && s.users[r.fd].fd == r.fd;
    if HangsUp(r.flags) {
      CloseIsSafe(c, s1, r.fd);
    } else {
      ExtendIsSafe(c, s1, r.fd, now);
      var s2 := Extend(c, s1, r.fd, now);
      TaskIsSafe(c, s2, Task(r.fd, ReadTask));
      TaskIsSafe(c, s2, Task(r.fd, WriteTask));
    }
    hide Safe, Counted, Known, Timed;
  }

  lemma TaskIsSafe(c: Config, s: State, t: Task)
    requires Safe(c, s) && t.fd in s.users
    ensures Safe(c, s.(tasks := s.tasks + multiset{t}))
  {
    assert forall u | u in s.tasks + multiset{t} :: u in s.tasks || u == t;
  }

  lemma EndIsSafe(c: Config, s: State, t: Task, action: Action)
    requires Safe(c, s) && t in s.tasks
    ensures Safe(c, End(s, t, action))
  {
    var s1 := s.(tasks := s.tasks - multiset{t});
    assert forall u | u in s1.tasks :: u in s.tasks;
    assert Safe(c, s1);
    if action == CloseIt {
      CloseIsSafe(c, s1, t.fd);
    } else {
      assert Arm(s1, t.fd, WantIn).epoll.Keys == Arm(s1, t.fd, WantOut).epoll.Keys == s1.epoll.Keys;
    }
  }

  lemma FireIsSafe(c: Config, s: State, fd: int, now: int)
    requires Safe(c, s) && Enabled(c, s, Fire(fd, now))
    ensures Safe(c, Next(c, s, Fire(fd, now)))
  {
    CloseIsSafe(c, s, fd);
  }

  lemma DeliverIsSafe(c: Config, s: State, ready: seq<Ready>)
    requires Safe(c, s) && Enabled(c, s, Deliver(ready))
    ensures Safe(c, Next(c, s, Deliver(ready)))
  {
    assert Next(c, s, Deliver(ready)).epoll.Keys == s.epoll.Keys;
  }

  /** Every step keeps: w_users[fd].h_fd == fd, the registered descriptors are the open
      connections, userCount counts them and stays within MAX_FD, every registered or pending
      descriptor has a timer node, and no deadline lies further ahead than the timeout. */
  lemma StepIsSafe(c: Config, s: State, e: Event)
    requires Safe(c, s) && Enabled(c, s, e)
    ensures Safe(c, Next(c, s, e))
  {
    match e
    case Accept(fd, now) => OpenIsSafe(c, s, fd, now);
    case Deliver(ready) => DeliverIsSafe(c, s, ready);
    case Dispatch(now) => HandleIsSafe(c, s, now);
    case Fire(fd, now) => FireIsSafe(c, s, fd, now);
    case Finish(t, action) => EndIsSafe(c, s, t, action);
  }

  /** In a safe state the assertions in the event loop, in Adjust and the unexpected-event branch
      cannot fail or be reached, and Adjust never moves a deadline to an earlier time. */
  lemma LoopAssertionsHold(c: Config, s: State, now: int)
    requires Safe(c, s) && s.batch != [] && now >= s.now
    ensures s.batch[0].fd in s.users
    ensures HangsUp(s.batch[0].flags) || EpollIn in s.batch[0].flags || EpollOut in s.batch[0].flags
    ensures c.timeoutMs > 0 ==> var fd := s.users[s.batch[0].fd].fd;
              fd in s.timer && s.timer[fd] <= Deadline(now, c.timeoutMs)
  {
    var f :| f in s.batch[0].flags;
    assert f == EpollIn || f == EpollOut || f == EpollRdHup || f == EpollHup || f == EpollErr;
  }

  /** A delivered event with any of the hang-up flags closes its connection, whatever else it reports;
      any other queues one task, to read if there is input.  Nothing else changes hands. */
  lemma DispatchDecides(c: Config, s: State, now: int)
    requires Safe(c, s) && Enabled(c, s, Dispatch(now))
    ensures var (r, s1) := (s.batch[0], Next(c, s, Dispatch(now)));
            var gone := EpollRdHup in r.flags || EpollHup in r.flags || EpollErr in r.flags;
            && s1.batch == s.batch[1..] && s1.now == now
            && (gone <==> s1.tasks == s.tasks) && (gone ==> s1.timer == s.timer)
            && s1.epoll == (if gone then s.epoll - {r.fd} else s.epoll)
            && s1.users == (if gone then s.users[r.fd := Conn(r.fd, true)] else s.users)
            && (!gone ==> s1.tasks
                          == s.tasks + multiset{Task(r.fd, if EpollIn in r.flags then ReadTask else WriteTask)})
  {
    LoopAssertionsHold(c, s, now);
    assert s.users[s.batch[0].fd].fd == s.batch[0].fd;
    var t := Task(s.batch[0].fd, if EpollIn in s.batch[0].flags then ReadTask else WriteTask);
    assert (s.tasks + multiset{t})[t] == s.tasks[t] + 1;
    hide Safe;
  }

  // ---------- One owner per connection ----------

  function TasksOf(s: State, fd: int): nat {
    s.tasks[Task(fd, ReadTask)] + s.tasks[Task(fd, WriteTask)]
  }

  /** Delivered events and tasks that still refer to `fd`. */
  function Outstanding(s: State, fd: int): nat { multiset(Fds(s.batch))[fd] + TasksOf(s, fd) }

  function Armed(s: State, fd: int): bool { fd in s.epoll && s.epoll[fd] != Disarmed }

  /** Every registered connection is in exactly one place: armed, delivered, or in one task; a
      descriptor that is not registered is nowhere. */
  ghost predicate Exclusive(s: State) {
    forall fd :: Bit(Armed(s, fd)) + Outstanding(s, fd) == Bit(fd in s.epoll)
  }

  lemma BatchHead(batch: seq<Ready>, fd: int)
    requires batch != []
    ensures multiset(Fds(batch))[fd] == Bit(batch[0].fd == fd) + multiset(Fds(batch[1..]))[fd]
  {
    assert Fds(batch) == [batch[0].fd] + Fds(batch[1..]);
  }

  lemma {:induction false} DistinctCount(batch: seq<Ready>, fd: int)
    requires forall i, j | 0 <= i < j < |batch| :: batch[i].fd != batch[j].fd
    ensures multiset(Fds(batch))[fd] == Bit(fd in Fds(batch))
    decreases |batch|
  {
    if batch == [] {
      assert Fds(batch) == [];
    } else {
      BatchHead(batch, fd);
      DistinctCount(batch[1..], fd);
      assert Fds(batch) == [batch[0].fd] + Fds(batch[1..]);
      if fd == batch[0].fd {
        assert fd !in Fds(batch[1..]) by {
          forall i | 0 <= i < |batch[1..]|
            ensures Fds(batch[1..])[i] != fd
          {
            assert Fds(batch[1..])[i] == batch[i + 1].fd;
          }
        }
      }
    }
  }

  lemma OpenIsExclusive(c: Config, s: State, fd: int, now: int)
    requires Safe(c, s) && Exclusive(s) && Enabled(c, s, Accept(fd, now))
    ensures Exclusive(Open(c, s, fd, now))
  {
    var s1 := Open(c, s, fd, now);
    forall x
      ensures Bit(Armed(s1, x)) + Outstanding(s1, x) == Bit(x in s1.epoll)
    {
      assert Bit(Armed(s, x)) + Outstanding(s, x) == Bit(x in s.epoll);
    }
  }

  lemma DeliverIsExclusive(c: Config, s: State, ready: seq<Ready>)
    requires Safe(c, s) && Exclusive(s) && Enabled(c, s, Deliver(ready))
    ensures Exclusive(Next(c, s, Deliver(ready)))
  {
    var s1 := Next(c, s, Deliver(ready));
    forall x
      ensures Bit(Armed(s1, x)) + Outstanding(s1, x) == Bit(x in s1.epoll)
    {
      assert Bit(Armed(s, x)) + Outstanding(s, x) == Bit(x in s.epoll);
      DistinctCount(ready, x);
      assert Fds(s.batch) == [];
      if x in Fds(ready) {
        var i :| 0 <= i < |ready| && Fds(ready)[i] == x;
        assert ready[i].fd == x && Armed(s, x);
      }
    }
  }

  lemma HandleIsExclusive(c: Config, s: State, now: int)
    requires Safe(c, s) && Exclusive(s) && Enabled(c, s, Dispatch(now))
    ensures Exclusive(Handle(c, s, now))
  {
    var s1 := Handle(c, s, now);
    var fd := s.batch[0].fd;
    LoopAssertionsHold(c, s, now);
    forall x
      ensures Bit(Armed(s1, x)) + Outstanding(s1, x) == Bit(x in s1.epoll)
    {
      assert Bit(Armed(s, x)) + Outstanding(s, x) == Bit(x in s.epoll);
      BatchHead(s.batch, x);
    }
  }

  /** What the end of a task changes for descriptor `x`. */
  lemma EndEffect(s: State, t: Task, action: Action, x: int)
    requires t in s.tasks && t.fd in s.users && s.users[t.fd].fd == t.fd
    ensures var s1 := End(s, t, action);
            && Outstanding(s1, x) == Outstanding(s, x) - Bit(x == t.fd)
            && (x in s1.epoll <==> x in s.epoll && !(action == CloseIt && x == t.fd))
            && (Armed(s1, x) <==> if x == t.fd then x in s.epoll && action != CloseIt else Armed(s, x))
  {
    assert t == Task(t.fd, if t.kind == ReadTask then ReadTask else WriteTask);
  }

  lemma EndIsExclusive(c: Config, s: State, t: Task, action: Action)
    requires Safe(c, s) && Exclusive(s) && t in s.tasks
    ensures Exclusive(End(s, t, action))
  {
    var s1 := End(s, t, action);
    assert s.users[t.fd].fd == t.fd;
    hide End, Outstanding, Armed, Safe;
    forall x
      ensures Bit(Armed(s1, x)) + Outstanding(s1, x) == Bit(x in s1.epoll)
    {
      assert Bit(Armed(s, x)) + Outstanding(s, x) == Bit(x in s.epoll);
      EndEffect(s, t, action, x);
    }
  }

  lemma FireIsExclusiveIff(c: Config, s: State, fd: int, now: int)
    requires Safe(c, s) && Exclusive(s) && Enabled(c, s, Fire(fd, now))
    ensures Exclusive(Next(c, s, Fire(fd, now))) <==> Outstanding(s, fd) == 0
  {
    var s1 := Next(c, s, Fire(fd, now));
    assert Bit(Armed(s, fd)) + Outstanding(s, fd) == Bit(fd in s.epoll);
    if Outstanding(s, fd) == 0 {
      forall x
        ensures Bit(Armed(s1, x)) + Outstanding(s1, x) == Bit(x in s1.epoll)
      {
        assert Bit(Armed(s, x)) + Outstanding(s, x) == Bit(x in s.epoll);
      }
    } else {
      assert Bit(Armed(s1, fd)) + Outstanding(s1, fd) != Bit(fd in s1.epoll);
    }
  }

  /** No timer fires on a connection with an event or a task outstanding. */
  predicate Guarded(s: State, e: Event) { e.Fire? ==> Outstanding(s, e.fd) == 0 }

  /** One-shot delivery and re-arming only as a task's last action keep every registered connection
      in exactly one place; the single step that can break this is a timer firing while the
      connection has an event or a task outstanding. */
  lemma StepIsExclusiveIff(c: Config, s: State, e: Event)
    requires Safe(c, s) && Exclusive(s) && Enabled(c, s, e)
    ensures Exclusive(Next(c, s, e)) <==> Guarded(s, e)
  {
    match e
    case Accept(fd, now) => OpenIsExclusive(c, s, fd, now);
    case Deliver(ready) => DeliverIsExclusive(c, s, ready);
    case Dispatch(now) => HandleIsExclusive(c, s, now);
    case Fire(fd, now) => FireIsExclusiveIff(c, s, fd, now);
    case Finish(t, action) => EndIsExclusive(c, s, t, action);
  }

  // ---------- At most one owner, even of a closed descriptor ----------

  /** How many owners a descriptor has: armed interest, delivered events and tasks. */
  function Owners(s: State, fd: int): nat { Bit(Armed(s, fd)) + Outstanding(s, fd) }

  ghost predicate AtMostOne(s: State) { forall fd :: Owners(s, fd) <= 1 }

  /** At most one owner everywhere, and a registered descriptor has one. */
  ghost predicate Owned(s: State) { forall fd :: Bit(fd in s.epoll) <= Owners(s, fd) <= 1 }

  /** No descriptor is handed out again while an event or a task of its former connection is
      outstanding. */
  predicate NoReuse(s: State, e: Event) { e.Accept? ==> Outstanding(s, e.fd) == 0 }

  lemma AcceptIsOwnedIff(c: Config, s: State, fd: int, now: int)
    requires Safe(c, s) && Owned(s) && Enabled(c, s, Accept(fd, now))
    ensures var s1 := Next(c, s, Accept(fd, now));
            (AtMostOne(s1) <==> Outstanding(s, fd) == 0) && (AtMostOne(s1) ==> Owned(s1))
  {
    var s1 := Next(c, s, Accept(fd, now));
    assert Owners(s1, fd) == 1 + Outstanding(s, fd);
    forall x | x != fd
      ensures Owners(s1, x) == Owners(s, x) && (x in s1.epoll <==> x in s.epoll)
    {
    }
    hide Owners, Outstanding, Next, Enabled, Safe;
  }

  lemma DeliverIsOwned(c: Config, s: State, ready: seq<Ready>)
    requires Owned(s) && Enabled(c, s, Deliver(ready))
    ensures Owned(Next(c, s, Deliver(ready)))
  {
    var s1 := Next(c, s, Deliver(ready));
    forall x
      ensures Owners(s1, x) == Owners(s, x) && (x in s1.epoll <==> x in s.epoll)
    {
      DistinctCount(ready, x);
      assert Fds(s.batch) == [] && Bit(x in s.epoll) <= Owners(s, x) <= 1;
      if x in Fds(ready) {
        var i :| 0 <= i < |ready| && Fds(ready)[i] == x;
        assert ready[i].fd == x && Armed(s, x);
      }
    }
    hide Owners, Next, Enabled;
  }

  lemma HandleIsOwned(c: Config, s: State, now: int)
    requires Safe(c, s) && Owned(s) && Enabled(c, s, Dispatch(now))
    ensures Owned(Handle(c, s, now))
  {
    var s1 := Handle(c, s, now);
    LoopAssertionsHold(c, s, now);
    forall x
      ensures Bit(x in s1.epoll) <= Owners(s1, x) <= 1
    {
      assert Bit(x in s.epoll) <= Owners(s, x) <= 1;
      BatchHead(s.batch, x);
    }
  }

  lemma FireIsOwned(c: Config, s: State, fd: int, now: int)
    requires Safe(c, s) && Owned(s) && Enabled(c, s, Fire(fd, now))
    ensures Owned(Next(c, s, Fire(fd, now)))
  {
    var s1 := Next(c, s, Fire(fd, now));
    forall x
      ensures Bit(x in s1.epoll) <= Owners(s1, x) <= 1
    {
      assert Bit(x in s.epoll) <= Owners(s, x) <= 1;
    }
  }

  lemma EndIsOwned(c: Config, s: State, t: Task, action: Action)
    requires Safe(c, s) && Owned(s) && t in s.tasks
    ensures Owned(End(s, t, action))
  {
    var s1 := End(s, t, action);
    assert s.users[t.fd].fd == t.fd;
    hide End, Outstanding, Armed, Safe;
    forall x
      ensures Bit(x in s1.epoll) <= Owners(s1, x) <= 1
    {
      assert Bit(x in s.epoll) <= Owners(s, x) <= 1;
      EndEffect(s, t, action, x);
    }
  }

  /** The one step that gives a descriptor two owners is an accept that reuses it too early. */
  lemma StepIsOwnedIff(c: Config, s: State, e: Event)
    requires Safe(c, s) && Owned(s) && Enabled(c, s, e)
    ensures AtMostOne(Next(c, s, e)) <==> NoReuse(s, e)
    ensures NoReuse(s, e) ==> Owned(Next(c, s, e))
  {
    hide Owners, Outstanding, Handle, End, Safe;
    match e
    case Accept(fd, now) => AcceptIsOwnedIff(c, s, fd, now);
    case Deliver(ready) => DeliverIsOwned(c, s, ready);
    case Dispatch(now) => HandleIsOwned(c, s, now);
    case Fire(fd, now) => FireIsOwned(c, s, fd, now);
    case Finish(t, action) => EndIsOwned(c, s, t, action);
  }

  // ---------- Whole runs ----------

  ghost predicate Legal(c: Config, s: State, run: seq<Event>)
    decreases |run|
  {
    run == [] || (Enabled(c, s, run[0]) && Legal(c, Next(c, s, run[0]), run[1..]))
  }

  ghost function After(c: Config, s: State, run: seq<Event>): State
    requires Legal(c, s, run)
    decreases |run|
  {
    if run == [] then s else After(c, Next(c, s, run[0]), run[1..])
  }

  ghost predicate GuardedRun(c: Config, s: State, run: seq<Event>)
    requires Legal(c, s, run)
    decreases |run|
  {
    run == [] || (Guarded(s, run[0]) && GuardedRun(c, Next(c, s, run[0]), run[1..]))
  }

  ghost predicate AlwaysExclusive(c: Config, s: State, run: seq<Event>)
    requires Legal(c, s, run)
    decreases |run|
  {
    Exclusive(s) && (run == [] || AlwaysExclusive(c, Next(c, s, run[0]), run[1..]))
  }

  lemma {:induction false} RunIsSafe(c: Config, s: State, run: seq<Event>)
    requires Safe(c, s) && Legal(c, s, run)
    ensures Safe(c, After(c, s, run))
    decreases |run|
  {
    if run != [] {
      StepIsSafe(c, s, run[0]);
      RunIsSafe(c, Next(c, s, run[0]), run[1..]);
    }
  }

  /** Every state of a run has one owner per connection exactly when no timer in it fires on a
      connection with something outstanding. */
  lemma {:induction false} RunIsExclusiveIff(c: Config, s: State, run: seq<Event>)
    requires Safe(c, s) && Exclusive(s) && Legal(c, s, run)
    ensures AlwaysExclusive(c, s, run) <==> GuardedRun(c, s, run)
    decreases |run|
  {
    if run != [] {
      StepIsSafe(c, s, run[0]);
      StepIsExclusiveIff(c, s, run[0]);
      if Guarded(s, run[0]) {
        RunIsExclusiveIff(c, Next(c, s, run[0]), run[1..]);
      } else if run[1..] != [] {
        assert !AlwaysExclusive(c, Next(c, s, run[0]), run[1..]);
      }
    }
  }

  ghost predicate AlwaysAtMostOne(c: Config, s: State, run: seq<Event>)
    requires Legal(c, s, run)
    decreases |run|
  {
    AtMostOne(s) && (run == [] || AlwaysAtMostOne(c, Next(c, s, run[0]), run[1..]))
  }

  ghost predicate NeverReused(c: Config, s: State, run: seq<Event>)
    requires Legal(c, s, run)
    decreases |run|
  {
    run == [] || (NoReuse(s, run[0]) && NeverReused(c, Next(c, s, run[0]), run[1..]))
  }

  /** Every descriptor has at most one owner throughout a run exactly when the run never hands a
      descriptor out again while something of its former connection is outstanding. */
  lemma {:induction false} RunIsOwnedIff(c: Config, s: State, run: seq<Event>)
    requires Safe(c, s) && Owned(s) && Legal(c, s, run)
    ensures AlwaysAtMostOne(c, s, run) <==> NeverReused(c, s, run)
    decreases |run|
  {
    hide Next, Enabled, Safe, NoReuse, Owners;
    if run != [] {
      var s1 := Next(c, s, run[0]);
      StepIsSafe(c, s, run[0]);
      StepIsOwnedIff(c, s, run[0]);
      if NoReuse(s, run[0]) { RunIsOwnedIff(c, s1, run[1..]); }
      var after := AlwaysAtMostOne(c, s1, run[1..]);
    }
  }

  /** ... from the start of the server. */
  lemma ServerIsOwnedIff(c: Config, run: seq<Event>)
    requires Legal(c, INITIAL, run)
    ensures AlwaysAtMostOne(c, INITIAL, run) <==> NeverReused(c, INITIAL, run)
  {
    InitialState(c);
    InitialIsOwned();
    RunIsOwnedIff(c, INITIAL, run);
  }

  // ---------- Every connection's tasks, in turn ----------

  /** Which task each connection must take next: a read task at first and after arming for input, a
      write task after arming for output, none after closing. */
  function Turned(next: map<int, Kind>, e: Event): map<int, Kind> {
    match e
    case Accept(fd, _) => next[fd := ReadTask]
    case Finish(t, ArmRead) => next[t.fd := ReadTask]
    case Finish(t, ArmWrite) => next[t.fd := WriteTask]
    case Finish(t, CloseIt) => next - {t.fd}
    case _ => next
  }

  predicate Expects(next: map<int, Kind>, fd: int, kind: Kind) { fd in next && next[fd] == kind }

  ghost predicate ArmedInTurn(epoll: map<int, Interest>, next: map<int, Kind>) {
    forall fd | fd in epoll ::
      && (epoll[fd] == WantIn ==> Expects(next, fd, ReadTask))
      && (epoll[fd] == WantOut ==> Expects(next, fd, WriteTask))
  }

  ghost predicate DeliveredInTurn(batch: seq<Ready>, next: map<int, Kind>) {
    forall r | r in batch ::
      && (EpollIn in r.flags ==> Expects(next, r.fd, ReadTask))
      && (EpollOut in r.flags ==> Expects(next, r.fd, WriteTask))
  }

  ghost predicate TakenInTurn(tasks: multiset<Task>, next: map<int, Kind>) {
    forall t | t in tasks :: Expects(next, t.fd, t.kind)
  }

  /** What is armed, delivered or under way is what must come next. */
  ghost predicate Prepared(s: State, next: map<int, Kind>) {
    ArmedInTurn(s.epoll, next) && DeliveredInTurn(s.batch, next) && TakenInTurn(s.tasks, next)
  }

  predicate InTurn(next: map<int, Kind>, e: Event) { e.Finish? ==> Expects(next, e.task.fd, e.task.kind) }

  lemma NothingOutstanding(s: State, fd: int)
    requires Outstanding(s, fd) == 0
    ensures (forall r | r in s.batch :: r.fd != fd) && (forall t | t in s.tasks :: t.fd != fd)
  {
    forall r | r in s.batch
      ensures r.fd != fd
    {
      var i :| 0 <= i < |s.batch| && s.batch[i] == r;
      assert Fds(s.batch)[i] == r.fd;
    }
    forall t | t in s.tasks
      ensures t.fd != fd
    {
      assert t == Task(t.fd, if t.kind == ReadTask then ReadTask else WriteTask);
    }
  }

  /** What does not concern `fd` stays in turn when only the turn of `fd` changes. */
  lemma OthersStayInTurn(s: State, next: map<int, Kind>, next1: map<int, Kind>, fd: int)
    requires Outstanding(s, fd) == 0 && DeliveredInTurn(s.batch, next) && TakenInTurn(s.tasks, next)
    requires next - {fd} == next1 - {fd}
    ensures DeliveredInTurn(s.batch, next1) && TakenInTurn(s.tasks, next1)
  {
    NothingOutstanding(s, fd);
    hide Outstanding;
    assert forall x, kind | x != fd :: Expects(next1 - {fd}, x, kind) <==> Expects(next1, x, kind);
    assert forall x, kind | x != fd :: Expects(next - {fd}, x, kind) <==> Expects(next, x, kind);
  }

  lemma AcceptIsPrepared(c: Config, s: State, next: map<int, Kind>, fd: int, now: int)
    requires Enabled(c, s, Accept(fd, now)) && Outstanding(s, fd) == 0 && Prepared(s, next)
    ensures Prepared(Open(c, s, fd, now), Turned(next, Accept(fd, now)))
  {
    OthersStayInTurn(s, next, next[fd := ReadTask], fd);
    hide Outstanding, DeliveredInTurn, TakenInTurn;
  }

  lemma DeliverIsPrepared(c: Config, s: State, next: map<int, Kind>, ready: seq<Ready>)
    requires Enabled(c, s, Deliver(ready)) && Prepared(s, next)
    ensures Prepared(Next(c, s, Deliver(ready)), next)
  {
    forall r | r in ready
      ensures r.fd in s.epoll && Reportable(s.epoll[r.fd], r.flags)
    {
      var i :| 0 <= i < |ready| && ready[i] == r;
    }
  }

  lemma HandleIsPrepared(c: Config, s: State, next: map<int, Kind>, now: int)
    requires Safe(c, s) && Enabled(c, s, Dispatch(now)) && Prepared(s, next)
    ensures Prepared(Handle(c, s, now), next)
  {
    var r := s.batch[0];
    assert r in s.batch && s.users[r.fd].fd == r.fd;
    hide Safe;
    assert DeliveredInTurn(s.batch[1..], next) by { assert forall x | x in s.batch[1..] :: x in s.batch; }
    if HangsUp(r.flags) {
      assert ArmedInTurn(s.epoll - {r.fd}, next);
    } else if EpollIn in r.flags {
      OneMoreInTurn(s.tasks, Task(r.fd, ReadTask), next);
    } else if EpollOut in r.flags {
      OneMoreInTurn(s.tasks, Task(r.fd, WriteTask), next);
    }
    hide DeliveredInTurn, ArmedInTurn, TakenInTurn;
  }

  lemma OneMoreInTurn(tasks: multiset<Task>, t: Task, next: map<int, Kind>)
    requires TakenInTurn(tasks, next) && Expects(next, t.fd, t.kind)
    ensures TakenInTurn(tasks + multiset{t}, next)
  {
    assert forall u | u in tasks + multiset{t} :: u in tasks || u == t;
  }

  lemma ReArmedInTurn(epoll: map<int, Interest>, next: map<int, Kind>, fd: int)
    requires ArmedInTurn(epoll, next)
    ensures ArmedInTurn(epoll - {fd}, next - {fd})
    ensures ArmedInTurn(epoll[fd := WantIn], next[fd := ReadTask])
    ensures ArmedInTurn(epoll[fd := WantOut], next[fd := WriteTask])
    ensures fd !in epoll ==> ArmedInTurn(epoll, next[fd := ReadTask]) && ArmedInTurn(epoll, next[fd := WriteTask])
  {
  }

  lemma TurnedElsewhere(next: map<int, Kind>, t: Task, action: Action)
    ensures next - {t.fd} == Turned(next, Finish(t, action)) - {t.fd}
  {
  }

  lemma EndIsPrepared(c: Config, s: State, next: map<int, Kind>, t: Task, action: Action)
    requires Safe(c, s) && Owned(s) && t in s.tasks && Prepared(s, next)
    ensures Prepared(End(s, t, action), Turned(next, Finish(t, action)))
  {
    var s1 := s.(tasks := s.tasks - multiset{t});
    assert s.users[t.fd].fd == t.fd;
    AloneAtEnd(s, t);
    FewerInTurn(s.tasks, t, next);
    ReArmedInTurn(s.epoll, next, t.fd);
    TurnedElsewhere(next, t, action);
    hide Safe, Owned, Outstanding, ArmedInTurn, DeliveredInTurn, TakenInTurn;
    OthersStayInTurn(s1, next, Turned(next, Finish(t, action)), t.fd);
  }

  lemma FewerInTurn(tasks: multiset<Task>, t: Task, next: map<int, Kind>)
    requires TakenInTurn(tasks, next)
    ensures TakenInTurn(tasks - multiset{t}, next)
  {
    assert forall u | u in tasks - multiset{t} :: u in tasks;
  }

  /** A task that ends is all there is of its connection. */
  lemma AloneAtEnd(s: State, t: Task)
    requires Owned(s) && t in s.tasks
    ensures Outstanding(s.(tasks := s.tasks - multiset{t}), t.fd) == 0
  {
    assert Owners(s, t.fd) <= 1;
    assert t == Task(t.fd, if t.kind == ReadTask then ReadTask else WriteTask);
  }

  lemma StepInTurn(c: Config, s: State, next: map<int, Kind>, e: Event)
    requires Safe(c, s) && Owned(s) && Prepared(s, next) && Enabled(c, s, e) && NoReuse(s, e)
    ensures InTurn(next, e) && Prepared(Next(c, s, e), Turned(next, e))
  {
    match e
    case Accept(fd, now) => AcceptIsPrepared(c, s, next, fd, now);
    case Deliver(ready) => DeliverIsPrepared(c, s, next, ready);
    case Dispatch(now) => HandleIsPrepared(c, s, next, now);
    case Fire(fd, now) =>
    case Finish(t, action) => EndIsPrepared(c, s, next, t, action);
  }

  ghost predicate AllInTurn(c: Config, s: State, next: map<int, Kind>, run: seq<Event>)
    requires Legal(c, s, run)
    decreases |run|
  {
    run == [] || (InTurn(next, run[0]) && AllInTurn(c, Next(c, s, run[0]), Turned(next, run[0]), run[1..]))
  }

  lemma {:induction false} RunInTurn(c: Config, s: State, next: map<int, Kind>, run: seq<Event>)
    requires Safe(c, s) && Owned(s) && Prepared(s, next) && Legal(c, s, run) && NeverReused(c, s, run)
    ensures AllInTurn(c, s, next, run)
    decreases |run|
  {
    hide Next, Enabled, Safe, NoReuse, Owned, Prepared, InTurn, Turned;
    if run != [] {
      StepIsSafe(c, s, run[0]);
      StepIsOwnedIff(c, s, run[0]);
      StepInTurn(c, s, next, run[0]);
      RunInTurn(c, Next(c, s, run[0]), Turned(next, run[0]), run[1..]);
    }
  }

  /** On every run from the start that never hands a descriptor out too early, with any timers and any
      actions of the tasks, each connection's tasks come one at a time and in the order in which a
      single thread would take them: a read task first, then what the task before armed for, and none
      after the one that closed. */
  lemma ServerInTurn(c: Config, run: seq<Event>)
    requires Legal(c, INITIAL, run) && NeverReused(c, INITIAL, run)
    ensures AllInTurn(c, INITIAL, map[], run)
  {
    InitialState(c);
    InitialIsOwned();
    RunInTurn(c, INITIAL, map[], run);
  }

  lemma InitialIsOwned()
    ensures Owned(INITIAL)
  {
    forall fd
      ensures Owners(INITIAL, fd) == 0
    {
      assert Fds([]) == [];
    }
  }

  lemma InitialState(c: Config)
    ensures Safe(c, INITIAL) && Exclusive(INITIAL)
  {
    assert OpenFds(map[]) == {};
    assert Fds([]) == [];
  }

  /** With the timer off every run from the start has one owner per connection throughout. */
  lemma WithoutTimerAlwaysExclusive(c: Config, run: seq<Event>)
    requires c.timeoutMs <= 0 && Legal(c, INITIAL, run)
    ensures AlwaysExclusive(c, INITIAL, run)
  {
    InitialState(c);
    NothingFires(c, INITIAL, run);
    RunIsExclusiveIff(c, INITIAL, run);
  }

  lemma {:induction false} NothingFires(c: Config, s: State, run: seq<Event>)
    requires c.timeoutMs <= 0 && Legal(c, s, run)
    ensures GuardedRun(c, s, run)
    decreases |run|
  {
    if run != [] { NothingFires(c, Next(c, s, run[0]), run[1..]); }
  }

  // ---------- Idle connections, and only those, time out ----------

  /** When each connection was last accepted, read or written for. */
  function Used(last: map<int, int>, s: State, e: Event): map<int, int> {
    match e
    case Accept(fd, now) => last[fd := now]
    case Dispatch(now) =>
      if s.batch != [] && s.batch[0].flags !! {EpollRdHup, EpollHup, EpollErr} then last[s.batch[0].fd := now] else last
    case _ => last
  }

  /** Every deadline is the timeout after the last use, to the nanosecond. */
  ghost predicate Punctual(c: Config, s: State, last: map<int, int>) {
    c.timeoutMs > 0 ==> forall fd | fd in s.timer ::
      fd in last && s.timer[fd] == last[fd] + c.timeoutMs * 1_000_000
  }

  /** Handling a read or write event moves the connection's deadline to the timeout from now, and no
      other. */
  lemma DispatchExtends(c: Config, s: State, now: int)
    requires Safe(c, s) && Enabled(c, s, Dispatch(now)) && c.timeoutMs > 0
    requires s.batch[0].flags !! {EpollRdHup, EpollHup, EpollErr}
    ensures Next(c, s, Dispatch(now)).timer == s.timer[s.batch[0].fd := now + c.timeoutMs * 1_000_000]
  {
    LoopAssertionsHold(c, s, now);
    hide Safe;
  }

  lemma StepIsPunctual(c: Config, s: State, last: map<int, int>, e: Event)
    requires Safe(c, s) && Enabled(c, s, e) && Punctual(c, s, last)
    ensures Punctual(c, Next(c, s, e), Used(last, s, e))
  {
    if e.Dispatch? { DispatchIsPunctual(c, s, last, e.now); }
    hide Safe, Handle;
  }

  lemma DispatchIsPunctual(c: Config, s: State, last: map<int, int>, now: int)
    requires Safe(c, s) && Enabled(c, s, Dispatch(now)) && Punctual(c, s, last)
    ensures Punctual(c, Next(c, s, Dispatch(now)), Used(last, s, Dispatch(now)))
  {
    if c.timeoutMs > 0 {
      if s.batch[0].flags !! {EpollRdHup, EpollHup, EpollErr} {
        DispatchExtends(c, s, now);
        hide Next;
      } else {
        assert HangsUp(s.batch[0].flags);
      }
    }
    hide Safe;
  }

  /** A timer fires at the earliest when less than a millisecond of the timeout is left since the last
      use, and from then on it may. */
  predicate Idle(c: Config, last: map<int, int>, fd: int, now: int) {
    fd in last && now - last[fd] > c.timeoutMs * 1_000_000 - 1_000_000
  }

  lemma FireIsEnabledIff(c: Config, s: State, last: map<int, int>, fd: int, now: int)
    requires Safe(c, s) && Punctual(c, s, last) && c.timeoutMs > 0
    requires s.batch == [] && fd in s.timer && now >= s.now
    ensures Enabled(c, s, Fire(fd, now)) <==> Idle(c, last, fd, now)
  {
  }

  ghost predicate OnlyIdleFire(c: Config, s: State, last: map<int, int>, run: seq<Event>)
    requires Legal(c, s, run)
    decreases |run|
  {
    run == [] || (
      && (run[0].Fire? ==> Idle(c, last, run[0].fd, run[0].now))
      && OnlyIdleFire(c, Next(c, s, run[0]), Used(last, s, run[0]), run[1..]))
  }

  lemma {:induction false} RunFiresOnlyIdle(c: Config, s: State, last: map<int, int>, run: seq<Event>)
    requires Safe(c, s) && Punctual(c, s, last) && Legal(c, s, run)
    ensures OnlyIdleFire(c, s, last, run)
    decreases |run|
  {
    if run != [] {
      var e := run[0];
      StepIsSafe(c, s, e);
      StepIsPunctual(c, s, last, e);
      if e.Fire? { FireIsEnabledIff(c, s, last, e.fd, e.now); }
      hide Safe, Punctual, Next, Used;
      RunFiresOnlyIdle(c, Next(c, s, e), Used(last, s, e), run[1..]);
    }
  }

  /** On every run from the start no connection times out before the timeout, less a millisecond, has
      passed since it was last accepted, read or written for. */
  lemma ServerFiresOnlyIdle(c: Config, run: seq<Event>)
    requires Legal(c, INITIAL, run)
    ensures OnlyIdleFire(c, INITIAL, map[], run)
  {
    InitialState(c);
    RunFiresOnlyIdle(c, INITIAL, map[], run);
  }

  /** With any timeout the guard matters: a task outlives its connection, the descriptor is reused,
      and the new connection is armed while the old task is still to run. */
  lemma TimerCanBreakExclusion(c: Config, fd: int)
    requires c.timeoutMs > 0 && fd > 0
    ensures var late := Deadline(0, c.timeoutMs);
            var reuse := [Fire(fd, late)] + ([Accept(fd, late)] + []);
            var run := [Accept(fd, 0)] + ([Deliver([Ready(fd, {EpollIn})])] + ([Dispatch(0)] + reuse));
            Legal(c, INITIAL, run)
            && var s := After(c, INITIAL, run); Armed(s, fd) && Outstanding(s, fd) == 1 && Owners(s, fd) == 2
  {
    var late := Deadline(0, c.timeoutMs);
    BusyIsReused(c, fd);
    hide Busy, Armed, Outstanding, Owners;
    BecomesBusy(c, fd, [Fire(fd, late)] + ([Accept(fd, late)] + []));
  }

  /** A connection whose read task is still to run. */
  function Busy(c: Config, fd: int): State {
    State(map[fd := Conn(fd, false)], map[fd := Disarmed], [], multiset{Task(fd, ReadTask)},
          map[fd := Deadline(0, c.timeoutMs)], 0, 1)
  }

  lemma BecomesBusy(c: Config, fd: int, rest: seq<Event>)
    requires c.timeoutMs > 0 && fd > 0 && Legal(c, Busy(c, fd), rest)
    ensures var run := [Accept(fd, 0)] + ([Deliver([Ready(fd, {EpollIn})])] + ([Dispatch(0)] + rest));
            Legal(c, INITIAL, run) && After(c, INITIAL, run) == After(c, Busy(c, fd), rest)
  {
    hide Legal, After;
    var ready := [Ready(fd, {EpollIn})];
    var s1 := State(map[fd := Conn(fd, false)], map[fd := WantIn], [], multiset{},
                    map[fd := Deadline(0, c.timeoutMs)], 0, 1);
    var s2 := s1.(epoll := map[fd := Disarmed], batch := ready);
    assert Next(c, INITIAL, Accept(fd, 0)) == s1;
    assert Fds(ready) == [fd];
    assert Next(c, s1, Deliver(ready)) == s2;
    assert Next(c, s2, Dispatch(0)) == Busy(c, fd);
    Prepend(c, s2, Dispatch(0), rest);
    Prepend(c, s1, Deliver(ready), [Dispatch(0)] + rest);
    Prepend(c, INITIAL, Accept(fd, 0), [Deliver(ready)] + ([Dispatch(0)] + rest));
  }

  lemma BusyIsReused(c: Config, fd: int)
    requires c.timeoutMs > 0 && fd > 0
    ensures var late := Deadline(0, c.timeoutMs);
            var reuse := [Fire(fd, late)] + ([Accept(fd, late)] + []);
            Legal(c, Busy(c, fd), reuse)
            && var s := After(c, Busy(c, fd), reuse); Armed(s, fd) && Outstanding(s, fd) == 1 && Owners(s, fd) == 2
  {
    var late := Deadline(0, c.timeoutMs);
    var s3 := Busy(c, fd);
    var s4 := State(map[fd := Conn(fd, true)], map[], [], s3.tasks, map[], late, 0);
    var s5 := Next(c, s4, Accept(fd, late));
    assert Next(c, s3, Fire(fd, late)) == s4;
    assert Fds(s5.batch) == [];
    Prepend(c, s4, Accept(fd, late), []);
    Prepend(c, s3, Fire(fd, late), [Accept(fd, late)] + []);
    assert After(c, s5, []) == s5;
  }

  lemma Prepend(c: Config, s: State, e: Event, rest: seq<Event>)
    requires Enabled(c, s, e) && Legal(c, Next(c, s, e), rest)
    ensures Legal(c, s, [e] + rest) && After(c, s, [e] + rest) == After(c, Next(c, s, e), rest)
  {
    assert ([e] + rest)[1..] == rest;
    hide Next, Enabled;
  }
}
