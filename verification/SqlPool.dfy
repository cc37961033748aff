/** The connection pool of code/pool/sql_conn_pool.cpp before it is closed: a queue under a mutex
    and a counting semaphore, used by any number of threads. */
module SqlPools {
  import opened Counting

  /** Connections are numbered from 0 to MAX_CONN - 1. */
  type Connection = nat

  /** Claiming: past the emptiness check, at sem_wait.  Permitted: past sem_wait, before the pop.
      Posting: inside FreeConn, between emplace and sem_post, with the mutex held. */
  datatype Phase = Idle | Claiming | Permitted | Posting

  /** A thread and the connections it was given and has not returned. */
  datatype Thread = Thread(phase: Phase, held: seq<Connection>)

  datatype State = State(queue: seq<Connection>, sem: nat, locked: bool, threads: seq<Thread>)

  datatype Event =
    | Ask(t: nat)                          // GetConn: the emptiness check
    | SemWait(t: nat)                      // ... the semaphore
    | Take(t: nat)                         // ... the pop
    | Return(t: nat, conn: Connection)     // FreeConn: the emplace
    | Post(t: nat)                         // ... sem_post and the end of the lock

  function StartState(max: nat, n: nat): State {
    State(seq(max, i => i), max, false, seq(n, _ => Thread(Idle, [])))
  }

  predicate InPhase(s: State, t: nat, p: Phase) { t < |s.threads| && s.threads[t].phase == p }

  predicate Enabled(s: State, e: Event) {
    match e
    case Ask(t) => InPhase(s, t, Idle)
    case SemWait(t) => InPhase(s, t, Claiming) && s.sem > 0
    case Take(t) => InPhase(s, t, Permitted) && !s.locked && s.queue != []
    case Return(t, _) => InPhase(s, t, Idle) && !s.locked
    case Post(t) => InPhase(s, t, Posting)
  }

  /** `held` without one occurrence of `conn`. */
  function Without(held: seq<Connection>, conn: Connection): seq<Connection> {
    if held == [] then []
    else if held[0] == conn then held[1..]
    else [held[0]] + Without(held[1..], conn)
  }

  function Move(s: State, t: nat, th: Thread): State
    requires t < |s.threads|
  {
    s.(threads := s.threads[t := th])
  }

  function Next(s: State, e: Event): State
    requires Enabled(s, e)
  {
    var th := s.threads[e.t];
    match e
    case Ask(t) => if s.queue == [] then s else Move(s, t, th.(phase := Claiming))
    case SemWait(t) => Move(s, t, th.(phase := Permitted)).(sem := s.sem - 1)
    case Take(t) => Move(s, t, Thread(Idle, th.held + [s.queue[0]])).(queue := s.queue[1..])
    case Return(t, conn) =>
      Move(s, t, Thread(Posting, Without(th.held, conn))).(queue := s.queue + [conn], locked := true)
    case Post(t) => Move(s, t, th.(phase := Idle)).(sem := s.sem + 1, locked := false)
  }

  // ---------- Semaphore and queue agree, whatever the callers do ----------

  function PhaseBit(p: Phase): Thread -> nat { (th: Thread) => Bit(th.phase == p) }

  function CountIn(threads: seq<Thread>, p: Phase): nat { Sum(threads, PhaseBit(p)) }

  ghost predicate Agrees(s: State) {
    && |s.queue| == s.sem + CountIn(s.threads, Permitted) + CountIn(s.threads, Posting)
    && CountIn(s.threads, Posting) == Bit(s.locked)
  }

  lemma StepKeepsAgreement(s: State, e: Event)
    requires Agrees(s) && Enabled(s, e)
    ensures Agrees(Next(s, e))
  {
    var th := Next(s, e).threads[e.t];
    SumUpdate(s.threads, e.t, th, PhaseBit(Permitted));
    SumUpdate(s.threads, e.t, th, PhaseBit(Posting));
    if e.Post? { SumAtLeast(s.threads, e.t, PhaseBit(Posting)); }
    if e.Ask? && s.queue == [] { assert s.threads[e.t := th] == s.threads; }
  }

  /** A thread with a permit always finds a connection to take: front() is never called on an
      empty queue. */
  lemma PermitFindsConnection(s: State, t: nat)
    requires Agrees(s) && InPhase(s, t, Permitted)
    ensures s.queue != [] && (!s.locked ==> Enabled(s, Take(t)))
  {
    SumAtLeast(s.threads, t, PhaseBit(Permitted));
  }

  // ---------- Nothing lost, nothing shared ----------

  function HeldCount(c: Connection): Thread -> nat { (th: Thread) => multiset(th.held)[c] }

  /** In how many places a connection is. */
  function Places(s: State, c: Connection): nat { multiset(s.queue)[c] + Sum(s.threads, HeldCount(c)) }

  /** Each of the `max` connections is in exactly one place: free, or held once by one thread. */
  ghost predicate Conserved(max: nat, s: State) { forall c: Connection :: Places(s, c) == Bit(c < max) }

  lemma {:induction false} WithoutCounts(held: seq<Connection>, conn: Connection, c: Connection)
    ensures multiset(Without(held, conn))[c] == multiset(held)[c] - Bit(conn in held && c == conn)
  {
    if held != [] {
      assert held == [held[0]] + held[1..];
      if held[0] != conn { WithoutCounts(held[1..], conn, c); }
    }
  }

  /** Giving back what one holds. */
  predicate Disciplined(s: State, e: Event) {
    Enabled(s, e) && (e.Return? ==> e.conn in s.threads[e.t].held)
  }

  lemma PlacesAfter(s: State, e: Event, c: Connection)
    requires Enabled(s, e)
    ensures Places(Next(s, e), c) == Places(s, c) + Bit(!Disciplined(s, e) && e.conn == c)
  {
    var s1 := Next(s, e);
    var th, th1 := s.threads[e.t], s1.threads[e.t];
    assert s1.threads == s.threads[e.t := th1];
    SumUpdate(s.threads, e.t, th1, HeldCount(c));
    hide Sum, Agrees, Conserved;
    if e.Take? {
      assert s.queue == [s.queue[0]] + s.queue[1..];
    } else if e.Return? {
      WithoutCounts(th.held, e.conn, c);
    }
  }

  /** A step keeps every connection in one place exactly when it does not return a connection the
      thread does not hold: freeing twice puts a connection into the pool twice. */
  lemma StepConservesIff(max: nat, s: State, e: Event)
    requires Conserved(max, s) && Enabled(s, e)
    ensures Conserved(max, Next(s, e)) <==> Disciplined(s, e)
  {
    if Disciplined(s, e) {
      forall c: Connection
        ensures Places(Next(s, e), c) == Bit(c < max)
      {
        PlacesAfter(s, e, c);
        assert Places(s, c) == Bit(c < max);
      }
    } else {
      PlacesAfter(s, e, e.conn);
      assert Places(s, e.conn) == Bit(e.conn < max);
    }
  }

  /** No connection has two holders, and none that is held is also free. */
  lemma OneHolder(max: nat, s: State, c: Connection, i: nat, j: nat)
    requires Conserved(max, s) && i < |s.threads| && j < |s.threads|
    requires c in s.threads[i].held && c in s.threads[j].held
    ensures i == j && c !in s.queue && multiset(s.threads[i].held)[c] == 1
  {
    assert Places(s, c) == Bit(c < max) <= 1;
    SumAtLeast(s.threads, i, HeldCount(c));
    if i < j {
      SumAtLeastTwo(s.threads, i, j, HeldCount(c));
    } else if j < i {
      SumAtLeastTwo(s.threads, j, i, HeldCount(c));
    }
  }

  function HeldLength(): Thread -> nat { (th: Thread) => |th.held| }

  /** Free and held connections add up to MAX_CONN. */
  predicate Accounted(max: nat, s: State) { |s.queue| + Sum(s.threads, HeldLength()) == max }

  lemma {:induction false} WithoutLength(held: seq<Connection>, conn: Connection)
    ensures |Without(held, conn)| == |held| - Bit(conn in held)
  {
    if held != [] && held[0] != conn { WithoutLength(held[1..], conn); }
  }

  lemma StepKeepsAccount(max: nat, s: State, e: Event)
    requires Accounted(max, s) && Disciplined(s, e)
    ensures Accounted(max, Next(s, e))
  {
    var th := Next(s, e).threads[e.t];
    SumUpdate(s.threads, e.t, th, HeldLength());
    if e.Return? { WithoutLength(s.threads[e.t].held, e.conn); }
    if e.Ask? { assert s.queue == [] ==> s.threads[e.t := th] == s.threads; }
  }

  // ---------- Whole runs ----------

  ghost predicate Legal(s: State, run: seq<Event>)
    decreases |run|
  {
    run == [] || (Enabled(s, run[0]) && Legal(Next(s, run[0]), run[1..]))
  }

  ghost function After(s: State, run: seq<Event>): State
    requires Legal(s, run)
    decreases |run|
  {
    if run == [] then s else After(Next(s, run[0]), run[1..])
  }

  ghost predicate DisciplinedRun(s: State, run: seq<Event>)
    decreases |run|
  {
    run == [] || (Disciplined(s, run[0]) && DisciplinedRun(Next(s, run[0]), run[1..]))
  }

  ghost predicate AlwaysConserved(max: nat, s: State, run: seq<Event>)
    requires Legal(s, run)
    decreases |run|
  {
    Conserved(max, s) && (run == [] || AlwaysConserved(max, Next(s, run[0]), run[1..]))
  }

  /** On every run the semaphore and the queue agree; every connection stays in exactly one place
      exactly when every return on the way is of a connection its thread holds, and then free and
      held connections add up. */
  lemma {:induction false} RunKeepsPool(max: nat, s: State, run: seq<Event>)
    requires Agrees(s) && Conserved(max, s) && Accounted(max, s) && Legal(s, run)
    ensures Agrees(After(s, run))
    ensures AlwaysConserved(max, s, run) <==> DisciplinedRun(s, run)
    ensures DisciplinedRun(s, run) ==> Accounted(max, After(s, run))
    decreases |run|
  {
    if run != [] {
      StepKeepsAgreement(s, run[0]);
      StepConservesIff(max, s, run[0]);
      if Disciplined(s, run[0]) {
        StepKeepsAccount(max, s, run[0]);
        RunKeepsPool(max, Next(s, run[0]), run[1..]);
      } else {
        RunKeepsAgreement(Next(s, run[0]), run[1..]);
        assert !AlwaysConserved(max, Next(s, run[0]), run[1..]);
      }
    }
  }

  lemma {:induction false} RunKeepsAgreement(s: State, run: seq<Event>)
    requires Agrees(s) && Legal(s, run)
    ensures Agrees(After(s, run))
    decreases |run|
  {
    if run != [] {
      StepKeepsAgreement(s, run[0]);
      RunKeepsAgreement(Next(s, run[0]), run[1..]);
    }
  }

  function Back(e: Event): seq<Connection> { match e case Return(_, conn) => [conn] case _ => [] }

  /** What a step gives a thread: the newest of its connections after a pop. */
  ghost function Given(s: State, e: Event): seq<Connection>
    requires Enabled(s, e)
  {
    match e
    case Take(t) => Next(s, e).threads[t].held[|s.threads[t].held|..]
    case _ => []
  }

  function ReturnedBy(run: seq<Event>): seq<Connection> {
    if run == [] then [] else Back(run[0]) + ReturnedBy(run[1..])
  }

  ghost function TakenBy(s: State, run: seq<Event>): seq<Connection>
    requires Legal(s, run)
    decreases |run|
  {
    if run == [] then [] else Given(s, run[0]) + TakenBy(Next(s, run[0]), run[1..])
  }

  lemma StepIsInOrder(s: State, e: Event)
    requires Enabled(s, e)
    ensures s.queue + Back(e) == Given(s, e) + Next(s, e).queue
  {
  }

  lemma Linked(free: seq<Connection>, back: seq<Connection>, rest: seq<Connection>,
               given: seq<Connection>, next: seq<Connection>, taken: seq<Connection>, end: seq<Connection>)
    requires free + back == given + next && next + rest == taken + end
    ensures free + (back + rest) == (given + taken) + end
  {
    assert free + (back + rest) == (free + back) + rest;
    assert (given + next) + rest == given + (next + rest);
  }

  /** On every run the connections handed out are the free ones and then those that came back, in that
      order: the one free for the longest time is always the next. */
  lemma {:induction false} HandedOutInOrder(s: State, run: seq<Event>)
    requires Legal(s, run)
    ensures s.queue + ReturnedBy(run) == TakenBy(s, run) + After(s, run).queue
    decreases |run|
  {
    if run != [] {
      var s1 := Next(s, run[0]);
      StepIsInOrder(s, run[0]);
      HandedOutInOrder(s1, run[1..]);
      hide Next, Given, Back, Enabled;
      Linked(s.queue, Back(run[0]), ReturnedBy(run[1..]),
             Given(s, run[0]), s1.queue, TakenBy(s1, run[1..]), After(s1, run[1..]).queue);
    }
  }

  /** The run of a thread that gets the only connection and returns it twice. */
  function ReturnTwice(): seq<Event> {
    [Ask(0)] + ([SemWait(0)] + ([Take(0)] + ([Return(0, 0)] + ([Post(0)] + ([Return(0, 0)] + ([Post(0)] + []))))))
  }

  /** Returning twice from a fresh pool leaves one connection in it twice, for two threads to get. */
  lemma SecondReturnDuplicates()
    ensures var s := StartState(1, 1);
            Legal(s, ReturnTwice()) && After(s, ReturnTwice()).queue == [0, 0] && !DisciplinedRun(s, ReturnTwice())
  {
  }

  lemma {:induction false} CountUpTo(max: nat, c: Connection)
    ensures multiset(seq(max, i => i))[c] == Bit(c < max)
    decreases max
  {
    if max > 0 {
      CountUpTo(max - 1, c);
      assert seq(max, i => i) == seq(max - 1, i => i) + [max - 1];
    }
  }

  lemma StartIsFine(max: nat, n: nat)
    ensures var s := StartState(max, n); Agrees(s) && Conserved(max, s) && Accounted(max, s)
  {
    var s := StartState(max, n);
    SumIsZero(s.threads, PhaseBit(Permitted));
    SumIsZero(s.threads, PhaseBit(Posting));
    SumIsZero(s.threads, HeldLength());
    forall c: Connection
      ensures Places(s, c) == Bit(c < max)
    {
      SumIsZero(s.threads, HeldCount(c));
      CountUpTo(max, c);
    }
  }

  // ---------- The pool object ----------

  class SqlConnPool {
    var queue: seq<Connection>
    var sem: nat
    ghost var locked: bool
    ghost var threads: seq<Thread>

    ghost function Snapshot(): State
      reads this
    {
      State(queue, sem, locked, threads)
    }

    /** Fills the queue one connection at a time, then sets the semaphore to the same number. */
    constructor (connSize: nat, ghost n: nat)
      requires connSize > 0
      ensures Snapshot() == StartState(connSize, n)
      ensures Agrees(Snapshot()) && Conserved(connSize, Snapshot())
    {
      var que: seq<Connection> := [];
      for i := 0 to connSize
        invariant que == seq(i, k => k)
      {
        que := que + [i];
      }
      queue := que;
      sem, locked, threads := connSize, false, seq(n, _ => Thread(Idle, []));
      new;
      StartIsFine(connSize, n);
      assert threads == StartState(connSize, n).threads;
    }

    /** The locked part of GetConn; `front` finds an element because the permit stands for one. */
    method TakeFront(ghost t: nat) returns (conn: Connection)
      requires Agrees(Snapshot()) && InPhase(Snapshot(), t, Permitted) && !locked
      modifies this
      ensures Agrees(Snapshot())
      ensures Enabled(old(Snapshot()), Take(t)) && Snapshot() == Next(old(Snapshot()), Take(t))
      ensures conn == old(queue)[0]
    {
      PermitFindsConnection(Snapshot(), t);
      StepKeepsAgreement(Snapshot(), Take(t));
      conn := queue[0];
      queue := queue[1..];
      threads := threads[t := Thread(Idle, threads[t].held + [conn])];
    }

    /** FreeConn, from taking the mutex to releasing it. */
    method FreeConn(ghost t: nat, conn: Connection)
      requires Agrees(Snapshot()) && Enabled(Snapshot(), Return(t, conn))
      modifies this
      ensures Agrees(Snapshot()) && queue == old(queue) + [conn] && sem == old(sem) + 1
      ensures var s := Next(old(Snapshot()), Return(t, conn)); Enabled(s, Post(t)) && Snapshot() == Next(s, Post(t))
    {
      ghost var s := Next(Snapshot(), Return(t, conn));
      StepKeepsAgreement(Snapshot(), Return(t, conn));
      StepKeepsAgreement(s, Post(t));
      queue := queue + [conn];
      sem := sem + 1;
      threads := Next(s, Post(t)).threads;
    }
  }
}
