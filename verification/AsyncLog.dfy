/** Asynchronous logging: any number of threads in Log::Write, one in Log::AsyncWrite, the bounded
    queue between them, and the two mutexes (l_mutex of the log, b_mutex of the queue).  A step is
    one stretch of code under b_mutex, or the code between taking or releasing l_mutex. */
module AsyncLog {
  import opened Counting

  /** A formatted line, named by a number. */
  type Line = nat

  /** A writer's place in Write.  Checked: the queue was seen not full.  Stuck: waiting for room
      inside Push_back with l_mutex held. */
  datatype Writer = Idle | Wants(line: Line) | Holds(line: Line) | Checked(line: Line) | Stuck(line: Line)

  /** The writing thread: inside Pop, asleep in it, holding a popped line, or writing it out. */
  datatype Consumer = Popping | Sleeping | Hand(line: Line) | Writing(line: Line)

  datatype Owner = Nobody | WriterHas(i: nat) | ConsumerHas

  /** `written` lists the lines in the order they left Write, `pushed` those that went through the
      queue, `popped` those taken from it, and `output` what is in the file. */
  datatype State = State(writers: seq<Writer>, consumer: Consumer, owner: Owner, queue: seq<Line>,
                         written: seq<Line>, pushed: seq<Line>, popped: seq<Line>, output: seq<Line>)

  /** isAsync, and the queue's capacity. */
  datatype Config = Config(isAsync: bool, capacity: nat)

  datatype Event =
    | Call(i: nat, line: Line)    // a thread calls Write
    | Lock(i: nat)                // ... and gets l_mutex
    | Check(i: nat)               // sees the queue not full, or writes to the file itself
    | Push(i: nat)                // Push_back, then the release of l_mutex
    | Wake(i: nat)                // condProd returns
    | Pop                         // takes a line, or goes to sleep
    | Rouse                       // condCons returns without a new line: Flush, or spuriously
    | LockOut                     // the consumer gets l_mutex
    | Out                         // ... and writes its line

  function StartState(n: nat): State {
    State(seq(n, _ => Idle), Popping, Nobody, [], [], [], [], [])
  }

  predicate Enabled(s: State, e: Event) {
    match e
    case Call(i, _) => i < |s.writers| && s.writers[i] == Idle
    case Lock(i) => i < |s.writers| && s.writers[i].Wants? && s.owner == Nobody
    case Check(i) => i < |s.writers| && s.writers[i].Holds?
    case Push(i) => i < |s.writers| && s.writers[i].Checked?
    case Wake(i) => i < |s.writers| && s.writers[i].Stuck?
    case Pop => s.consumer == Popping
    case Rouse => s.consumer == Sleeping
    case LockOut => s.consumer.Hand? && s.owner == Nobody
    case Out => s.consumer.Writing?
  }

  predicate Full(c: Config, s: State) { |s.queue| >= c.capacity }

  /** The write that bypasses the queue. */
  function Direct(s: State, i: nat): State
    requires i < |s.writers| && s.writers[i].Holds?
  {
    var line := s.writers[i].line;
    s.(output := s.output + [line], written := s.written + [line], writers := s.writers[i := Idle], owner := Nobody)
  }

  /** Push_back's wait is entered only when the queue is full. */
  function PushStep(c: Config, s: State, i: nat): State
    requires i < |s.writers| && s.writers[i].Checked?
  {
    var line := s.writers[i].line;
    if Full(c, s) then s.(writers := s.writers[i := Stuck(line)])
    else
      s.(queue := s.queue + [line], written := s.written + [line], pushed := s.pushed + [line],
         consumer := if s.consumer == Sleeping then Popping else s.consumer,
         writers := s.writers[i := Idle], owner := Nobody)
  }

  function PopStep(s: State): State {
    if s.queue == [] then s.(consumer := Sleeping)
    else s.(consumer := Hand(s.queue[0]), queue := s.queue[1..], popped := s.popped + [s.queue[0]])
  }

  function Next(c: Config, s: State, e: Event): State
    requires Enabled(s, e)
  {
    match e
    case Call(i, line) => s.(writers := s.writers[i := Wants(line)])
    case Lock(i) => s.(writers := s.writers[i := Holds(s.writers[i].line)], owner := WriterHas(i))
    case Check(i) =>
      if c.isAsync && !Full(c, s) then s.(writers := s.writers[i := Checked(s.writers[i].line)]) else Direct(s, i)
    case Push(i) => PushStep(c, s, i)
    case Wake(i) => s.(writers := s.writers[i := Checked(s.writers[i].line)])
    case Pop => PopStep(s)
    case Rouse => s.(consumer := Popping)
    case LockOut => s.(consumer := Writing(s.consumer.line), owner := ConsumerHas)
    case Out => s.(consumer := Popping, output := s.output + [s.consumer.line], owner := Nobody)
  }

  // ---------- What every run keeps ----------

  /** The line between Pop and the file. */
  function InHand(s: State): seq<Line> {
    match s.consumer case Hand(line) => [line] case Writing(line) => [line] case _ => []
  }

  predicate OwnsLock(w: Writer) { w.Holds? || w.Checked? || w.Stuck? }

  ghost predicate LocksAgree(s: State) {
    && (forall i | 0 <= i < |s.writers| :: OwnsLock(s.writers[i]) <==> s.owner == WriterHas(i))
    && (s.consumer.Writing? <==> s.owner == ConsumerHas)
    && (s.owner.WriterHas? ==> s.owner.i < |s.writers|)
  }

  /** Nobody waits for room, and whoever is about to push has room. */
  ghost predicate NeverStuck(c: Config, s: State) {
    && |s.queue| <= c.capacity
    && (forall i | 0 <= i < |s.writers| :: !s.writers[i].Stuck? && (s.writers[i].Checked? ==> |s.queue| < c.capacity))
  }

  ghost predicate LinesConserved(s: State) {
    && multiset(s.written) == multiset(s.output) + multiset(InHand(s)) + multiset(s.queue)
    && s.pushed == s.popped + s.queue
  }

  ghost predicate Inv(c: Config, s: State) {
    && c.capacity > 0 && LocksAgree(s) && NeverStuck(c, s) && LinesConserved(s)
    && (s.consumer == Sleeping ==> s.queue == [])
  }

  lemma LocksKept(c: Config, s: State, e: Event)
    requires Inv(c, s) && Enabled(s, e)
    ensures LocksAgree(Next(c, s, e))
  {
    hide LinesConserved;
    if e.Check? || e.Push? { assert OwnsLock(s.writers[e.i]); }
  }

  /** Only the holder of l_mutex pushes, so the room it saw is still there. */
  lemma RoomKept(c: Config, s: State, e: Event)
    requires Inv(c, s) && Enabled(s, e)
    ensures NeverStuck(c, Next(c, s, e))
    ensures Next(c, s, e).consumer == Sleeping ==> Next(c, s, e).queue == []
  {
    hide LinesConserved;
    if e.Check? || e.Push? { assert OwnsLock(s.writers[e.i]); }
  }

  lemma DirectKeepsLines(s: State, i: nat)
    requires LinesConserved(s) && i < |s.writers| && s.writers[i].Holds?
    ensures LinesConserved(Direct(s, i))
  {
  }

  lemma PushKeepsLines(c: Config, s: State, i: nat)
    requires LinesConserved(s) && i < |s.writers| && s.writers[i].Checked?
    ensures LinesConserved(PushStep(c, s, i))
  {
    assert s.pushed + [s.writers[i].line] == s.popped + (s.queue + [s.writers[i].line]);
  }

  lemma PopKeepsLines(s: State)
    requires LinesConserved(s) && s.consumer == Popping
    ensures LinesConserved(PopStep(s))
  {
    if s.queue != [] {
      assert s.queue == [s.queue[0]] + s.queue[1..];
      assert s.popped + s.queue == (s.popped + [s.queue[0]]) + s.queue[1..];
    }
  }

  lemma LinesKept(c: Config, s: State, e: Event)
    requires LinesConserved(s) && Enabled(s, e)
    ensures LinesConserved(Next(c, s, e))
  {
    match e
    case Check(i) => DirectKeepsLines(s, i);
    case Push(i) => PushKeepsLines(c, s, i); hide PushStep;
    case Pop => PopKeepsLines(s); hide PopStep;
    case _ =>
  }

  lemma StepKeepsInv(c: Config, s: State, e: Event)
    requires Inv(c, s) && Enabled(s, e)
    ensures Inv(c, Next(c, s, e))
  {
    LocksKept(c, s, e);
    RoomKept(c, s, e);
    LinesKept(c, s, e);
    hide LocksAgree, NeverStuck, LinesConserved, Next;
  }

  lemma StartIsFine(c: Config, n: nat)
    requires c.capacity > 0
    ensures Inv(c, StartState(n)) && InOrder(StartState(n))
  {
  }

  /** A writer that passed the fullness check never waits inside Push_back. */
  lemma PushNeverWaits(c: Config, s: State, i: nat)
    requires Inv(c, s) && Enabled(s, Push(i))
    ensures var t := Next(c, s, Push(i));
            t.writers[i] == Idle && t.queue == s.queue + [s.writers[i].line] && t.owner == Nobody
  {
  }

  lemma NotFull(c: Config, s: State, i: nat)
    requires Inv(c, s) && Enabled(s, Push(i))
    ensures |s.queue| < c.capacity
  {
  }

  // ---------- Order in the file ----------

  /** The file will end up in the order the lines were written. */
  ghost predicate InOrder(s: State) { s.written == s.output + InHand(s) + s.queue }

  lemma {:induction false} Rotates(rest: seq<Line>, line: Line)
    ensures rest + [line] == [line] + rest <==> forall x | x in rest :: x == line
  {
    if rest != [] {
      var tail := rest[1..];
      Rotates(tail, line);
      var a, b := rest + [line], [line] + rest;
      assert rest == [rest[0]] + tail;
      assert a[0] == rest[0] && a[1..] == tail + [line];
      assert b[0] == line && b[1..] == rest;
      if rest[0] != line {
        assert rest[0] in rest && a != b;
      } else {
        assert b[1..] == [line] + tail;
        assert a == [line] + (tail + [line]) && b == [line] + ([line] + tail);
        assert a == b <==> tail + [line] == [line] + tail by { SamePrefix([line], tail + [line], [line] + tail); }
        assert forall x | x in tail :: x in [rest[0]] + tail;
        assert forall x | x in rest :: x in tail || x == line;
      }
    }
  }

  /** A write that bypasses the queue. */
  predicate Bypasses(c: Config, s: State, e: Event) { e.Check? && !(c.isAsync && !Full(c, s)) }

  /** Does not write past a different line that is still on its way. */
  ghost predicate Orderly(c: Config, s: State, e: Event)
    requires Enabled(s, e)
  {
    Bypasses(c, s, e) ==> forall x | x in InHand(s) + s.queue :: x == s.writers[e.i].line
  }

  lemma DirectOrderIff(s: State, i: nat)
    requires InOrder(s) && i < |s.writers| && s.writers[i].Holds?
    ensures InOrder(Direct(s, i)) <==> forall x | x in InHand(s) + s.queue :: x == s.writers[i].line
  {
    var rest, line := InHand(s) + s.queue, s.writers[i].line;
    Rotates(rest, line);
    var t := Direct(s, i);
    assert t.written == s.output + (rest + [line]);
    assert t.output + InHand(t) + t.queue == s.output + ([line] + rest);
    SamePrefix(s.output, rest + [line], [line] + rest);
  }

  lemma PushKeepsOrder(c: Config, s: State, i: nat)
    requires InOrder(s) && i < |s.writers| && s.writers[i].Checked?
    ensures InOrder(PushStep(c, s, i))
  {
  }

  lemma PopKeepsOrder(s: State)
    requires InOrder(s) && s.consumer == Popping
    ensures InOrder(PopStep(s))
  {
    if s.queue != [] { assert s.output + [] + s.queue == s.output + [s.queue[0]] + s.queue[1..]; }
  }

  /** The queue keeps order; a write that bypasses it keeps order exactly when every line still on
      its way is the same line. */
  lemma OrderKeptIff(c: Config, s: State, e: Event)
    requires InOrder(s) && Enabled(s, e)
    ensures InOrder(Next(c, s, e)) <==> Orderly(c, s, e)
  {
    match e
    case Check(i) => DirectOrderIff(s, i); hide Direct;
    case Push(i) => PushKeepsOrder(c, s, i); hide PushStep;
    case Pop => PopKeepsOrder(s); hide PopStep;
    case _ =>
  }

  lemma SamePrefix(a: seq<Line>, b: seq<Line>, c: seq<Line>)
    ensures a + b == a + c <==> b == c
  {
    assert (a + b)[|a|..] == b && (a + c)[|a|..] == c;
  }

  // ---------- Whole runs ----------

  ghost predicate Legal(c: Config, s: State, run: seq<Event>)
    decreases |run|
  {
    run == [] || (Enabled(s, run[0]) && Legal(c, Next(c, s, run[0]), run[1..]))
  }

  ghost function After(c: Config, s: State, run: seq<Event>): State
    requires Legal(c, s, run)
    decreases |run|
  {
    if run == [] then s else After(c, Next(c, s, run[0]), run[1..])
  }

  lemma {:induction false} RunKeepsInv(c: Config, s: State, run: seq<Event>)
    requires Inv(c, s) && Legal(c, s, run)
    ensures Inv(c, After(c, s, run))
    decreases |run|
  {
    hide Inv, Next, Enabled;
    if run != [] {
      StepKeepsInv(c, s, run[0]);
      RunKeepsInv(c, Next(c, s, run[0]), run[1..]);
    }
  }

  ghost predicate OrderlyRun(c: Config, s: State, run: seq<Event>)
    requires Legal(c, s, run)
    decreases |run|
  {
    run == [] || (Orderly(c, s, run[0]) && OrderlyRun(c, Next(c, s, run[0]), run[1..]))
  }

  ghost predicate AlwaysInOrder(c: Config, s: State, run: seq<Event>)
    requires Legal(c, s, run)
    decreases |run|
  {
    InOrder(s) && (run == [] || AlwaysInOrder(c, Next(c, s, run[0]), run[1..]))
  }

  /** The file stays in writing order throughout a run exactly when no write in it bypasses the
      queue while a different line is queued or in the consumer's hand. */
  lemma {:induction false} RunInOrderIff(c: Config, s: State, run: seq<Event>)
    requires InOrder(s) && Legal(c, s, run)
    ensures AlwaysInOrder(c, s, run) <==> OrderlyRun(c, s, run)
    decreases |run|
  {
    hide InOrder, Next, Enabled, Orderly;
    if run != [] {
      var s1 := Next(c, s, run[0]);
      OrderKeptIff(c, s, run[0]);
      if InOrder(s1) { RunInOrderIff(c, s1, run[1..]); }
      var after := AlwaysInOrder(c, s1, run[1..]);
    }
  }

  lemma Prepend(c: Config, s: State, e: Event, rest: seq<Event>)
    requires Enabled(s, e) && Legal(c, Next(c, s, e), rest)
    ensures Legal(c, s, [e] + rest) && After(c, s, [e] + rest) == After(c, Next(c, s, e), rest)
  {
    assert ([e] + rest)[1..] == rest;
    hide Next, Enabled;
  }

  // ---------- Overtaking ----------

  function Zeros(k: nat): seq<Line> { seq(k, _ => 0) }

  /** One thread has pushed `k` lines 0 and the consumer has not run. */
  function Filled(k: nat): State { State([Idle], Popping, Nobody, Zeros(k), Zeros(k), Zeros(k), [], []) }

  /** `n` more such lines, and then a line 1. */
  function OvertakingRun(n: nat): seq<Event> {
    if n == 0 then [Call(0, 1)] + ([Lock(0)] + ([Check(0)] + []))
    else [Call(0, 0)] + ([Lock(0)] + ([Check(0)] + ([Push(0)] + OvertakingRun(n - 1))))
  }

  lemma PushedLine(c: Config, k: nat, rest: seq<Event>)
    requires c.isAsync && k < c.capacity && Legal(c, Filled(k + 1), rest)
    ensures var run := [Call(0, 0)] + ([Lock(0)] + ([Check(0)] + ([Push(0)] + rest)));
            Legal(c, Filled(k), run) && After(c, Filled(k), run) == After(c, Filled(k + 1), rest)
  {
    var s := Filled(k);
    var s1 := s.(writers := [Wants(0)]);
    var s2 := s.(writers := [Holds(0)], owner := WriterHas(0));
    var s3 := s2.(writers := [Checked(0)]);
    assert Next(c, s, Call(0, 0)) == s1 && Next(c, s1, Lock(0)) == s2;
    assert Next(c, s2, Check(0)) == s3;
    assert Zeros(k) + [0] == Zeros(k + 1);
    assert Next(c, s3, Push(0)) == Filled(k + 1);
    Prepend(c, s3, Push(0), rest);
    Prepend(c, s2, Check(0), [Push(0)] + rest);
    Prepend(c, s1, Lock(0), [Check(0)] + ([Push(0)] + rest));
    Prepend(c, s, Call(0, 0), [Lock(0)] + ([Check(0)] + ([Push(0)] + rest)));
  }

  lemma BypassingLine(c: Config)
    ensures var s := Filled(c.capacity);
            Legal(c, s, OvertakingRun(0))
            && After(c, s, OvertakingRun(0)) == s.(output := [1], written := Zeros(c.capacity) + [1])
  {
    var s := Filled(c.capacity);
    var s1 := s.(writers := [Wants(1)]);
    var s2 := s.(writers := [Holds(1)], owner := WriterHas(0));
    var s3 := s.(output := [1], written := Zeros(c.capacity) + [1]);
    assert Next(c, s, Call(0, 1)) == s1 && Next(c, s1, Lock(0)) == s2;
    assert [] + [1 as Line] == [1];
    assert Next(c, s2, Check(0)) == s3;
    Prepend(c, s2, Check(0), []);
    Prepend(c, s1, Lock(0), [Check(0)] + []);
    Prepend(c, s, Call(0, 1), [Lock(0)] + ([Check(0)] + []));
  }

  lemma {:induction false} FillAndOvertake(c: Config, k: nat)
    requires c.isAsync && k <= c.capacity
    ensures var run := OvertakingRun(c.capacity - k);
            Legal(c, Filled(k), run) && After(c, Filled(k), run).output == [1]
            && After(c, Filled(k), run).queue == Zeros(c.capacity)
            && After(c, Filled(k), run).written == Zeros(c.capacity) + [1]
    decreases c.capacity - k
  {
    if k == c.capacity {
      BypassingLine(c);
    } else {
      FillAndOvertake(c, k + 1);
      PushedLine(c, k, OvertakingRun(c.capacity - (k + 1)));
    }
  }

  /** Whatever the capacity, there is a run from the start in which a late line reaches the file
      before all that were written earlier. */
  lemma LineOvertakes(c: Config)
    requires c.isAsync && c.capacity > 0
    ensures var run := OvertakingRun(c.capacity);
            Legal(c, StartState(1), run)
            && var t := After(c, StartState(1), run);
               t.written == Zeros(c.capacity) + [1] && t.output == [1] && !InOrder(t)
  {
    assert Filled(0) == StartState(1);
    FillAndOvertake(c, 0);
    var t := After(c, StartState(1), OvertakingRun(c.capacity));
    assert t.written[0] == 0 && (t.output + InHand(t) + t.queue)[0] == 1;
  }

  // ---------- No deadlock ----------

  function WriterWeight(): Writer -> nat {
    (w: Writer) => match w case Idle => 0 case Wants(_) => 7 case Holds(_) => 6 case Checked(_) => 5 case Stuck(_) => 5
  }

  /** How far the lines in flight still have to go. */
  function Pending(s: State): nat {
    Sum(s.writers, WriterWeight()) + 4 * |s.queue|
    + match s.consumer case Hand(_) => 3 case Writing(_) => 2 case _ => 0
  }

  /** Steps that move a line on. */
  predicate Working(s: State, e: Event) {
    Enabled(s, e) && (e.Lock? || e.Check? || e.Push? || (e.Pop? && s.queue != []) || e.LockOut? || e.Out?)
  }

  lemma WorkingStepsProgress(c: Config, s: State, e: Event)
    requires Inv(c, s) && Working(s, e)
    ensures Pending(Next(c, s, e)) < Pending(s)
  {
    hide LocksAgree, LinesConserved;
    var t := Next(c, s, e);
    if e.Lock? || e.Check? || e.Push? { SumUpdate(s.writers, e.i, t.writers[e.i], WriterWeight()); }
  }

  /** While any line is in flight some thread can move it on: the two mutexes and the bounded queue
      cannot deadlock. */
  lemma NeverDeadlocked(c: Config, s: State) returns (e: Event)
    requires Inv(c, s) && Pending(s) > 0
    ensures Working(s, e)
  {
    hide LinesConserved;
    match s.owner
    case WriterHas(i) =>
      assert OwnsLock(s.writers[i]);
      return if s.writers[i].Holds? then Check(i) else Push(i);
    case ConsumerHas => return Out;
    case Nobody =>
      if s.consumer.Hand? { return LockOut; }
      if s.queue != [] { return Pop; }
      var i := SumPositive(s.writers, WriterWeight());
      assert !OwnsLock(s.writers[i]);
      return Lock(i);
  }

  ghost predicate Drains(c: Config, s: State, run: seq<Event>)
    decreases |run|
  {
    run == [] || (Working(s, run[0]) && Drains(c, Next(c, s, run[0]), run[1..]))
  }

  /** Left alone, the log drains: every sequence of working steps is finite, and when none is left
      every line ever written is in the file. */
  lemma {:induction false} LogDrains(c: Config, s: State, run: seq<Event>)
    requires Inv(c, s) && Drains(c, s, run)
    ensures Legal(c, s, run) && |run| <= Pending(s)
    ensures var t := After(c, s, run);
            Inv(c, t) && ((forall e :: !Working(t, e)) ==> multiset(t.written) == multiset(t.output) && t.queue == [])
    decreases |run|
  {
    if run == [] {
      if forall e :: !Working(s, e) {
        if Pending(s) > 0 { var e := NeverDeadlocked(c, s); assert false; }
        assert InHand(s) == [] && s.queue == [];
      }
    } else {
      StepKeepsInv(c, s, run[0]);
      WorkingStepsProgress(c, s, run[0]);
      LogDrains(c, Next(c, s, run[0]), run[1..]);
    }
  }

  // ---------- The code of the critical sections ----------

  class Log {
    const config: Config
    var writers: seq<Writer>
    var consumer: Consumer
    var owner: Owner
    var queue: seq<Line>
    var output: seq<Line>
    ghost var written: seq<Line>
    ghost var pushed: seq<Line>
    ghost var popped: seq<Line>

    ghost function Snapshot(): State
      reads this
    {
      State(writers, consumer, owner, queue, written, pushed, popped, output)
    }

    constructor (config: Config, threads: nat)
      requires config.capacity > 0
      ensures this.config == config && Inv(config, Snapshot()) && |writers| == threads
    {
      this.config := config;
      writers, consumer, owner, queue, output := seq(threads, _ => Idle), Popping, Nobody, [], [];
      written, pushed, popped := [], [], [];
      new;
      StartIsFine(config, threads);
      assert writers == StartState(threads).writers;
    }

    /** `BlockDeque::Full`. */
    predicate IsFull()
      reads this
    {
      |queue| >= config.capacity
    }

    /** The choice at the end of Write: go through the queue, or straight to the file. */
    method ChooseWay(i: nat)
      requires Inv(config, Snapshot()) && i < |writers| && writers[i].Holds?
      modifies this
      ensures Inv(config, Snapshot()) && Snapshot() == Next(config, old(Snapshot()), Check(i))
    {
      StepKeepsInv(config, Snapshot(), Check(i));
      var line := writers[i].line;
      if config.isAsync && !IsFull() {
        writers := writers[i := Checked(line)];
      } else {
        output := output + [line];
        written := written + [line];
        writers := writers[i := Idle];
        owner := Nobody;
      }
    }

    /** `BlockDeque::Push_back`, whose wait is dead code here: the branch is never taken. */
    method PushBack(i: nat)
      requires Inv(config, Snapshot()) && i < |writers| && writers[i].Checked?
      modifies this
      ensures Inv(config, Snapshot()) && Snapshot() == Next(config, old(Snapshot()), Push(i))
      ensures queue == old(queue) + [old(writers)[i].line] && |queue| <= config.capacity
    {
      StepKeepsInv(config, Snapshot(), Push(i));
      PushNeverWaits(config, Snapshot(), i);
      NotFull(config, Snapshot(), i);
      hide Inv;
      var line := writers[i].line;
      if IsFull() { assert false; }
      queue := queue + [line];
      written, pushed := written + [line], pushed + [line];
      if consumer == Sleeping { consumer := Popping; }
      writers := writers[i := Idle];
      owner := Nobody;
    }

    /** `BlockDeque::Pop` up to its wait or its return. */
    method PopFront()
      requires Inv(config, Snapshot()) && consumer == Popping
      modifies this
      ensures Inv(config, Snapshot()) && Snapshot() == Next(config, old(Snapshot()), Pop)
    {
      StepKeepsInv(config, Snapshot(), Pop);
      hide Inv;
      if queue == [] {
        consumer := Sleeping;
      } else {
        consumer := Hand(queue[0]);
        popped := popped + [queue[0]];
        queue := queue[1..];
      }
    }
  }
}
