/** The handlers of code/server/web_server.cpp as code, over the real timer heap; each one is a
    step of the connection protocol. */
module WebServers {
  import opened ServerProtocol
  import opened HttpConns
  import TimerHeap

  ghost function Deadlines(m: map<int, TimerHeap.Entry>): map<int, int> {
    map id | id in m :: m[id].expires
  }

  lemma DeadlinesUpdate(m: map<int, TimerHeap.Entry>, id: int, e: TimerHeap.Entry)
    ensures Deadlines(m[id := e]) == Deadlines(m)[id := e.expires]
  {
  }

  lemma NoLateDeadline(c: Config, s: State, contents: map<int, TimerHeap.Entry>, clock: int)
    requires Safe(c, s) && s.timer == Deadlines(contents) && s.batch != [] && clock >= s.now
    ensures s.batch[0].fd in s.users && s.users[s.batch[0].fd].fd == s.batch[0].fd
    ensures c.timeoutMs > 0 ==> s.batch[0].fd in contents
    ensures forall id | id in contents :: contents[id].expires <= TimerHeap.Deadline(clock, c.timeoutMs)
  {
    assert forall id | id in contents :: s.timer[id] == contents[id].expires;
  }

  ghost function Fires(fired: seq<TimerHeap.TimerNode>, clock: nat -> int): seq<Event> {
    seq(|fired|, k requires 0 <= k < |fired| => Fire(fired[k].id, clock(k)))
  }

  lemma {:induction false} AppendStep(c: Config, s: State, run: seq<Event>, e: Event)
    requires Legal(c, s, run) && Enabled(c, After(c, s, run), e)
    ensures Legal(c, s, run + [e]) && After(c, s, run + [e]) == Next(c, After(c, s, run), e)
    decreases |run|
  {
    hide Next, Enabled;
    if run == [] {
      assert (run + [e])[1..] == [];
      assert After(c, Next(c, s, e), []) == Next(c, s, e);
    } else {
      assert (run + [e])[1..] == run[1..] + [e];
      AppendStep(c, Next(c, s, run[0]), run[1..], e);
    }
  }

  /** A state in which the first `k` releases of a tick are done. */
  ghost predicate Ticking(c: Config, s: State, tasks: multiset<Task>, deadlines: map<int, int>,
                          fired: seq<TimerHeap.TimerNode>, clock: nat -> int, k: nat)
    requires k <= |fired|
  {
    && Safe(c, s) && s.batch == [] && s.tasks == tasks && s.now <= clock(k)
    && s.timer == deadlines - TimerHeap.FiredIds(fired[..k])
  }

  /** What a tick may release: distinct known ids, each due at its own reading. */
  ghost predicate Releasable(c: Config, deadlines: map<int, int>, fired: seq<TimerHeap.TimerNode>, clock: nat -> int) {
    && c.timeoutMs > 0 && TimerHeap.NonDecreasing(clock)
    && (forall k | 0 <= k < |fired| :: fired[k].id in deadlines && deadlines[fired[k].id] == fired[k].expires)
    && (forall j, k | 0 <= j < k < |fired| :: fired[j].id != fired[k].id)
    && (forall k | 0 <= k < |fired| :: TimerHeap.Due(fired[k].expires, clock(k)))
  }

  /** The next release is an enabled Fire step. */
  lemma FireIsEnabled(c: Config, s: State, tasks: multiset<Task>, deadlines: map<int, int>,
                      fired: seq<TimerHeap.TimerNode>, clock: nat -> int, k: nat)
    requires Releasable(c, deadlines, fired, clock) && k < |fired| && Ticking(c, s, tasks, deadlines, fired, clock, k)
    ensures Enabled(c, s, Fire(fired[k].id, clock(k)))
  {
    assert fired[k].id !in TimerHeap.FiredIds(fired[..k]);
    hide Counted, Timed, TimerHeap.FiredIds;
  }

  lemma FireEffect(c: Config, s: State, fd: int, now: int)
    requires Enabled(c, s, Fire(fd, now))
    ensures var t := Next(c, s, Fire(fd, now));
            t.batch == [] && t.tasks == s.tasks && t.now == now && t.timer == s.timer - {fd}
  {
  }

  lemma TickStep(c: Config, s: State, tasks: multiset<Task>, deadlines: map<int, int>,
                 fired: seq<TimerHeap.TimerNode>, clock: nat -> int, k: nat)
    requires Releasable(c, deadlines, fired, clock) && k < |fired| && Ticking(c, s, tasks, deadlines, fired, clock, k)
    ensures var e := Fire(fired[k].id, clock(k));
            Enabled(c, s, e) && Ticking(c, Next(c, s, e), tasks, deadlines, fired, clock, k + 1)
  {
    hide Next, Enabled, Safe, TimerHeap.FiredIds;
    var e := Fire(fired[k].id, clock(k));
    FireIsEnabled(c, s, tasks, deadlines, fired, clock, k);
    StepIsSafe(c, s, e);
    FireEffect(c, s, fired[k].id, clock(k));
    FiredMore(fired, k);
    assert clock(k) <= clock(k + 1);
  }

  lemma FiredMore(fired: seq<TimerHeap.TimerNode>, k: nat)
    requires k < |fired|
    ensures TimerHeap.FiredIds(fired[..k + 1]) == TimerHeap.FiredIds(fired[..k]) + {fired[k].id}
  {
    var a, b := fired[..k], fired[..k + 1];
    assert b == a + [fired[k]];
    forall i | 0 <= i < |a|
      ensures a[i].id in TimerHeap.FiredIds(b)
    {
      assert b[i] == a[i];
    }
    assert b[k].id in TimerHeap.FiredIds(b);
  }

  lemma EmptyRun(c: Config, s: State, fired: seq<TimerHeap.TimerNode>, clock: nat -> int)
    ensures Fires(fired[..0], clock) == [] && Legal(c, s, []) && After(c, s, []) == s
  {
  }

  lemma FiresMore(fired: seq<TimerHeap.TimerNode>, clock: nat -> int, k: nat)
    requires k < |fired|
    ensures Fires(fired[..k + 1], clock) == Fires(fired[..k], clock) + [Fire(fired[k].id, clock(k))]
  {
  }

  lemma ReleasedIsReleasable(c: Config, before: map<int, TimerHeap.Entry>, after: map<int, TimerHeap.Entry>,
                             fired: seq<TimerHeap.TimerNode>, clock: nat -> int)
    requires c.timeoutMs > 0 && TimerHeap.NonDecreasing(clock) && TimerHeap.TickOutcome(before, after, fired, clock)
    ensures Releasable(c, Deadlines(before), fired, clock)
    ensures Deadlines(after) == Deadlines(before) - TimerHeap.FiredIds(fired)
    ensures forall k | 0 <= k < |fired| :: fired[k].id in before && fired[k].cb == before[fired[k].id].cb
    ensures forall id | id in after :: id in before && after[id] == before[id]
  {
  }

  lemma NothingFiredYet(c: Config, s: State, before: map<int, TimerHeap.Entry>,
                        fired: seq<TimerHeap.TimerNode>, clock: nat -> int)
    requires Safe(c, s) && s.batch == [] && s.now <= clock(0) && s.timer == Deadlines(before)
    ensures Ticking(c, s, s.tasks, Deadlines(before), fired, clock, 0)
  {
    hide Safe;
    assert TimerHeap.FiredIds(fired[..0]) == {};
  }

  lemma AllFired(c: Config, s: State, tasks: multiset<Task>,
                 before: map<int, TimerHeap.Entry>, after: map<int, TimerHeap.Entry>,
                 fired: seq<TimerHeap.TimerNode>, clock: nat -> int)
    requires Ticking(c, s, tasks, Deadlines(before), fired, clock, |fired|)
    requires Deadlines(after) == Deadlines(before) - TimerHeap.FiredIds(fired)
    ensures Safe(c, s) && s.batch == [] && s.tasks == tasks && s.timer == Deadlines(after)
  {
    assert fired[..|fired|] == fired;
  }

  lemma RemovedOne(tasks: seq<Task>, i: nat)
    requires i < |tasks|
    ensures multiset(tasks[..i] + tasks[i + 1..]) == multiset(tasks) - multiset{tasks[i]}
  {
    assert tasks == tasks[..i] + [tasks[i]] + tasks[i + 1..];
  }

  class WebServer {
    const config: Config
    const timer: TimerHeap.Timer

    var users: map<int, Conn>
    var epoll: map<int, Interest>
    var batch: seq<Ready>
    var tasks: seq<Task>
    var userCount: int
    ghost var now: int

    ghost function Abs(): State
      reads this, timer
      requires timer.Exact()
    {
      State(users, epoll, batch, multiset(tasks), Deadlines(timer.Contents()), now, userCount)
    }

    /** The protocol's invariants, a well-formed timer, and callbacks that close their own id. */
    ghost predicate Valid()
      reads this, timer
    {
      && timer.Valid() && Safe(config, Abs())
      && forall id | id in timer.Contents() :: timer.Contents()[id].cb == TimerHeap.CloseConn(id)
    }

    constructor (timeoutMs: int)
      ensures Valid() && fresh(timer) && config == Config(timeoutMs) && Abs() == INITIAL
    {
      config := Config(timeoutMs);
      timer := new TimerHeap.Timer();
      users, epoll, batch, tasks, userCount, now := map[], map[], [], [], 0, 0;
      new;
      assert multiset(tasks) == multiset{};
      assert Deadlines(timer.Contents()) == map[];
      InitialState(config);
    }

    /** Unregisters and closes; closing twice counts once. */
    method CloseConn(fd: int)
      requires timer.Valid() && fd in users
      modifies this`users, this`epoll, this`userCount
      ensures Abs() == Close(old(Abs()), fd)
    {
      var client := users[fd];
      epoll := epoll - {client.fd};
      if !client.isClose {
        users := users[fd := client.(isClose := true)];
        userCount := userCount - 1;
      }
    }

    /** A new connection, unless there are too many. */
    method AcceptOne(fd: int, clock: int) returns (accepted: bool)
      requires Valid() && fd > 0 && (fd in users ==> users[fd].isClose) && clock >= now
      modifies this, timer
      ensures Valid() && batch == old(batch)
      ensures accepted <==> old(userCount) < 65536
      ensures accepted ==> Abs() == Next(config, old(Abs()), Accept(fd, clock))
      ensures !accepted ==> Abs() == old(Abs())
    {
      if userCount >= MAX_FD {
        return false;
      }
      StepIsSafe(config, Abs(), Accept(fd, clock));
      AddClient(fd, clock);
      accepted := true;
    }

    method AddClient(fd: int, clock: int)
      requires timer.Valid() && fd > 0
      modifies this, timer
      ensures timer.Valid() && Abs() == Open(config, old(Abs()), fd, clock)
      ensures timer.Contents() == if config.timeoutMs > 0 then old(timer.Contents())[fd := NodeFor(fd, clock)]
                                  else old(timer.Contents())
    {
      users := users[fd := Conn(fd, false)];
      userCount := userCount + 1;
      if config.timeoutMs > 0 {
        DeadlinesUpdate(timer.Contents(), fd, NodeFor(fd, clock));
        timer.Add(fd, config.timeoutMs, TimerHeap.CloseConn(fd), clock);
      }
      epoll := epoll[fd := WantIn];
      now := clock;
    }

    function NodeFor(fd: int, clock: int): TimerHeap.Entry {
      TimerHeap.Entry(TimerHeap.Deadline(clock, config.timeoutMs), TimerHeap.CloseConn(fd))
    }

    /** `ExtentTime`: Adjust only sifts down, which suffices because no stored deadline is later
        than the new one. */
    method ExtentTime(fd: int, clock: int)
      requires timer.Valid()
      requires config.timeoutMs > 0 ==> fd in timer.Contents()
      requires forall id | id in timer.Contents() ::
                 timer.Contents()[id].expires <= TimerHeap.Deadline(clock, config.timeoutMs)
      modifies timer
      ensures timer.Valid()
      ensures config.timeoutMs <= 0 ==> timer.Contents() == old(timer.Contents())
      ensures config.timeoutMs > 0 ==> timer.Contents() == old(timer.Contents())[fd := TimerHeap.Entry(
                TimerHeap.Deadline(clock, config.timeoutMs), old(timer.Contents())[fd].cb)]
    {
      if config.timeoutMs > 0 {
        var i := timer.refs[fd];
        if i > 0 {
          ghost var parent := timer.heap[(i - 1) / 2];
          assert timer.Contents()[parent.id].expires == parent.expires;
        }
        timer.Adjust(fd, config.timeoutMs, clock);
      }
    }

    /** `DealRead` and `DealWrite`. */
    method Deal(fd: int, kind: Kind, clock: int)
      requires timer.Valid() && fd in users && users[fd].fd == fd
      requires config.timeoutMs > 0 ==> fd in timer.Contents()
      requires forall id | id in timer.Contents() ::
                 timer.Contents()[id].expires <= TimerHeap.Deadline(clock, config.timeoutMs)
      modifies this, timer
      ensures timer.Valid()
      ensures Abs() == var s := Extend(config, old(Abs()), fd, clock); s.(tasks := s.tasks + multiset{Task(fd, kind)})
      ensures timer.Contents().Keys == old(timer.Contents()).Keys
      ensures forall id | id in timer.Contents() :: timer.Contents()[id].cb == old(timer.Contents())[id].cb
    {
      if config.timeoutMs > 0 {
        DeadlinesUpdate(timer.Contents(), fd, TimerHeap.Entry(
          TimerHeap.Deadline(clock, config.timeoutMs), timer.Contents()[fd].cb));
      }
      ExtentTime(fd, clock);
      now := clock;
      tasks := tasks + [Task(fd, kind)];
    }

    /** One iteration of the event loop's inner loop. */
    method DispatchNext(clock: int)
      requires Valid() && batch != [] && clock >= now
      modifies this, timer
      ensures Valid() && Abs() == Next(config, old(Abs()), Dispatch(clock))
    {
      hide Safe, Deadlines, Close, Extend, TimerHeap.Ordered, TimerHeap.Indexed, TimerHeap.View;
      LoopAssertionsHold(config, Abs(), clock);
      StepIsSafe(config, Abs(), Dispatch(clock));
      NoLateDeadline(config, Abs(), timer.Contents(), clock);
      var r := batch[0];
      batch := batch[1..];
      now := clock;
      if HangsUp(r.flags) {
        CloseConn(r.fd);
      } else if EpollIn in r.flags {
        Deal(r.fd, ReadTask, clock);
      } else if EpollOut in r.flags {
        Deal(r.fd, WriteTask, clock);
      }
    }

    /** `epoll_wait` fills the event array and disarms what it reports. */
    method Wait(ready: seq<Ready>)
      requires Valid() && Enabled(config, Abs(), Deliver(ready))
      modifies this`batch, this`epoll
      ensures Valid() && Abs() == Next(config, old(Abs()), Deliver(ready))
    {
      StepIsSafe(config, Abs(), Deliver(ready));
      batch := ready;
      epoll := map fd | fd in epoll :: if fd in Fds(ready) then Disarmed else epoll[fd];
    }

    /** The end of OnRead or OnWrite: close, or re-arm as the last action. */
    method FinishTask(i: nat, action: Action)
      requires Valid() && i < |tasks|
      modifies this`tasks, this`users, this`epoll, this`userCount
      ensures Valid() && Abs() == Next(config, old(Abs()), Finish(old(tasks[i]), action))
    {
      var t := tasks[i];
      assert t in multiset(tasks);
      StepIsSafe(config, Abs(), Finish(t, action));
      RemovedOne(tasks, i);
      tasks := tasks[..i] + tasks[i + 1..];
      match action {
        case CloseIt => CloseConn(t.fd);
        case ArmRead => ModFd(users[t.fd].fd, WantIn);
        case ArmWrite => ModFd(users[t.fd].fd, WantOut);
      }
    }

    method ModFd(fd: int, want: Interest)
      requires timer.Exact()
      modifies this`epoll
      ensures Abs() == Arm(old(Abs()), fd, want)
    {
      if fd in epoll {
        epoll := epoll[fd := want];
      }
    }

    /** One callback: close the node's connection. */
    method RunCallback(node: TimerHeap.TimerNode, reading: int, ghost s: State)
      requires timer.Valid() && Follows(s) && Enabled(config, s, Fire(node.id, reading))
      requires node.cb == TimerHeap.CloseConn(node.id)
      modifies this`users, this`epoll, this`userCount, this`now
      ensures Follows(Next(config, s, Fire(node.id, reading)))
    {
      CloseConn(node.cb.fd);
      now := reading;
    }

    method RunCallbacks(fired: seq<TimerHeap.TimerNode>, clock: nat -> int,
                        ghost s0: State, ghost deadlines: map<int, int>)
      requires timer.Valid() && Follows(s0) && Releasable(config, deadlines, fired, clock)
      requires Ticking(config, s0, s0.tasks, deadlines, fired, clock, 0)
      requires forall k | 0 <= k < |fired| :: fired[k].cb == TimerHeap.CloseConn(fired[k].id)
      modifies this`users, this`epoll, this`userCount, this`now
      ensures Legal(config, s0, Fires(fired, clock))
      ensures var s := After(config, s0, Fires(fired, clock));
              Follows(s) && Ticking(config, s, s0.tasks, deadlines, fired, clock, |fired|)
    {
      hide Safe, Ticking, Enabled, Next, Legal, After, Releasable, Fires, TimerHeap.FiredIds;
      ghost var s, run := s0, [];
      EmptyRun(config, s0, fired, clock);
      for k := 0 to |fired|
        invariant Ticking(config, s, s0.tasks, deadlines, fired, clock, k)
        invariant run == Fires(fired[..k], clock) && Legal(config, s0, run) && After(config, s0, run) == s
        invariant Follows(s)
      {
        ghost var e := Fire(fired[k].id, clock(k));
        TickStep(config, s, s0.tasks, deadlines, fired, clock, k);
        FiresMore(fired, clock, k);
        AppendStep(config, s0, run, e);
        RunCallback(fired[k], clock(k), s);
        run := run + [e];
        s := Next(config, s, e);
      }
      assert fired[..|fired|] == fired;
    }

    /** The timer part of the main loop: every node that is due closes its connection.  The whole
        tick is a run of Fire steps, in deadline order. */
    method Tick(clock: nat -> int) returns (fired: seq<TimerHeap.TimerNode>)
      requires Valid() && batch == [] && config.timeoutMs > 0
      requires TimerHeap.NonDecreasing(clock) && clock(0) >= now
      modifies this`users, this`epoll, this`userCount, this`now, timer
      ensures Valid()
      ensures TimerHeap.TickOutcome(old(timer.Contents()), timer.Contents(), fired, clock)
      ensures Legal(config, old(Abs()), Fires(fired, clock))
      ensures Abs() == After(config, old(Abs()), Fires(fired, clock))
    {
      ghost var s0, before := Abs(), timer.Contents();
      fired := timer.Tick(clock);
      hide Safe, Legal, After, Releasable, Ticking, Fires, Deadlines, TimerHeap.TickOutcome;
      ghost var after := timer.Contents();
      ReleasedIsReleasable(config, before, after, fired, clock);
      NothingFiredYet(config, s0, before, fired, clock);
      RunCallbacks(fired, clock, s0, Deadlines(before));
      ghost var s := After(config, s0, Fires(fired, clock));
      AllFired(config, s, s0.tasks, before, after, fired, clock);
      assert Abs() == s;
    }

    /** All but the timer agrees with `s`. */
    ghost predicate Follows(s: State)
      reads this
    {
      users == s.users && epoll == s.epoll && userCount == s.userCount && now == s.now
      && batch == s.batch && multiset(tasks) == s.tasks
    }
  }
}
