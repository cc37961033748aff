/** A connection from its opening to its closing: any sequence of the turns that
    code/server/web_server.cpp:153-192 gives it, with any kernel, peer, file system and database
    answering in each. */
module ConnectionLives {
  import opened Text
  import opened ByteBuffer
  import opened HttpConns
  import HttpRequests
  import HttpResponses

  /** What the outside world does during one turn. */
  datatype Turn = Turn(net: Source, rounds: nat, kernel: Kernel, errno: nat -> int,
                       fs: HttpResponses.FileSystem, verify: HttpRequests.Verifier)

  ghost predicate Lawful(isET: bool, t: Turn) {
    && ObeysReadv(t.net) && (isET ==> EndsBy(t.net, t.rounds))
    && ObeysWritev(t.kernel) && HttpResponses.Mappable(t.fs) && HttpResponses.Manageable(t.fs)
  }

  /** A turn in which no write fails other than for want of room. */
  ghost predicate Smooth(t: Turn) { MakesProgress(t.kernel) && forall k: nat :: t.errno(k) == EAGAIN }

  /** A turn in which the peer neither ends its side nor fails. */
  ghost predicate Staying(t: Turn) {
    forall call: nat, room: nat :: HttpConns.Stops(t.net(call, room)) ==> t.net(call, room) == Failed(EAGAIN)
  }

  // ---------- The answers as one stream ----------

  function Answers(done: seq<Exchange>, srcDir: string): seq<Byte> {
    if done == [] then [] else Answers(done[..|done| - 1], srcDir) + Answer(done[|done| - 1], srcDir)
  }

  function Bodies(done: seq<Exchange>, srcDir: string): seq<string> {
    if done == [] then [] else Bodies(done[..|done| - 1], srcDir) + [AnswerBody(done[|done| - 1], srcDir)]
  }

  lemma OneMoreAnswer(start: seq<Byte>, done: seq<Exchange>, e: Exchange, srcDir: string)
    ensures start + Answers(done + [e], srcDir) == start + Answers(done, srcDir) + Answer(e, srcDir)
  {
    hide Answer;
    assert (done + [e])[..|done|] == done;
  }

  /** A receiver that reads response after response by their announced lengths, as long as one is
      complete: the bodies, and what is left. */
  function ReceiveAll(s: string): (seq<string>, string)
    decreases |s|
  {
    match HttpResponses.ReceiveHead(s, None)
    case None => ([], s)
    case Some((None, _)) => ([], s)
    case Some((Some(length), rest)) =>
      if length > |rest| then ([], s)
      else
        var (bodies, left) := ReceiveAll(rest[length..]);
        ([rest[..length]] + bodies, left)
  }

  lemma AnswerIsTakenOff(e: Exchange, srcDir: string, next: string)
    ensures var (bodies, left) := ReceiveAll(next);
            ReceiveAll(Answer(e, srcDir) + next) == ([AnswerBody(e, srcDir)] + bodies, left)
  {
    hide Answer, AnswerBody, HttpResponses.ReceiveHead;
    var body := AnswerBody(e, srcDir);
    AnswerIsReceived(e, srcDir, next);
    assert (body + next)[..|body|] == body && (body + next)[|body|..] == next;
  }

  /** The receiver splits a stream of answers into exactly their bodies. */
  lemma {:induction false} AnswersAreTakenOff(done: seq<Exchange>, srcDir: string, next: string)
    ensures var (bodies, left) := ReceiveAll(next);
            ReceiveAll(Answers(done, srcDir) + next) == (Bodies(done, srcDir) + bodies, left)
    decreases |done|
  {
    hide Answer, AnswerBody, ReceiveAll;
    if done == [] {
      assert Answers(done, srcDir) + next == next;
      assert Bodies(done, srcDir) + ReceiveAll(next).0 == ReceiveAll(next).0;
    } else {
      var k := |done| - 1;
      AnswerIsTakenOff(done[k], srcDir, next);
      AnswersAreTakenOff(done[..k], srcDir, Answer(done[k], srcDir) + next);
      Regroup(Answers(done[..k], srcDir), Answer(done[k], srcDir), next);
      Regroup(Bodies(done[..k], srcDir), [AnswerBody(done[k], srcDir)], ReceiveAll(next).0);
    }
  }

  /** From an answer cut short the receiver takes nothing. */
  lemma CutShortIsLeft(e: Exchange, srcDir: string, part: string)
    requires part <= Answer(e, srcDir) && part != Answer(e, srcDir)
    ensures ReceiveAll(part) == ([], part)
  {
    hide Answer, AnswerBody;
    var more := Answer(e, srcDir)[|part|..];
    assert Answer(e, srcDir) == part + more == part + more + "";
    AnswerIsReceived(e, srcDir, "");
    hide HttpResponses.ReceiveHead;
    if HttpResponses.ReceiveHead(part, None).Some? {
      HttpResponses.HeadStaysReceived(part, None, more);
      assert |AnswerBody(e, srcDir) + ""| == |AnswerBody(e, srcDir)|;
    }
  }

  lemma NothingIsReceived()
    ensures ReceiveAll("") == ([], "")
  {
  }

  // ---------- A connection's account ----------

  /** Where a connection is in its life: the exchanges answered in full, the one being answered, the
      part of its answer that has been sent; and what arrived before each exchange, and after the
      last. */
  datatype Progress = Progress(done: seq<Exchange>, current: Option<Exchange>, part: seq<Byte>,
                               arrivals: seq<seq<Byte>>, late: seq<Byte>) {
    function Begun(): seq<Exchange> { done + match current case Some(e) => [e] case None => [] }
  }

  /** What a connection had sent and received, what it had not yet read, and the length left over on its
      slot, when it began. */
  datatype Origin = Origin(life: seq<Byte>, received: seq<Byte>, unread: seq<Byte>, leftover: nat)

  const NOTHING_YET := Progress([], None, [], [], [])

  /** All bytes ever sent are the full answers and then a part of one more. */
  ghost predicate Sends(life: seq<Byte>, o: Origin, p: Progress, srcDir: string) {
    && life == o.life + Answers(p.done, srcDir) + p.part
    && (p.current.None? ==> p.part == [])
    && (p.current.Some? ==> p.part <= Answer(p.current.value, srcDir))
  }

  function Flatten(pieces: seq<seq<Byte>>): seq<Byte> {
    if pieces == [] then [] else Flatten(pieces[..|pieces| - 1]) + pieces[|pieces| - 1]
  }

  /** What the parser left of the last of these exchanges. */
  function LeftUnread(begun: seq<Exchange>, o: Origin): seq<Byte> {
    if begun == [] then o.unread else Leftover(begun[|begun| - 1])
  }

  /** Each exchange's text is what the one before left, followed by what arrived since. */
  ghost predicate Chained(begun: seq<Exchange>, arrivals: seq<seq<Byte>>, o: Origin) {
    && |arrivals| == |begun|
    && forall k | 0 <= k < |begun| :: begun[k].text == LeftUnread(begun[..k], o) + arrivals[k]
  }

  /** All bytes ever received are the arrivals of the exchanges begun, and then what came too late;
      what is unread now is what the last one left and what came too late. */
  ghost predicate Receives(received: seq<Byte>, unread: seq<Byte>, o: Origin, p: Progress) {
    && Chained(p.Begun(), p.arrivals, o)
    && received == o.received + Flatten(p.arrivals) + p.late
    && unread == LeftUnread(p.Begun(), o) + p.late
  }

  function ParsedText(e: Exchange): HttpRequests.Parsed {
    HttpRequests.ParseText(HttpRequests.BLANK, e.text, e.verify)
  }

  predicate AsksToStay(e: Exchange) { HttpRequests.KeepAlive(ParsedText(e).request) }

  /** The length left over while the answer after `done` is prepared: the first answer that is complete
      and not the last has used it up. */
  function Carried(done: seq<Exchange>, o: Origin): nat { if done == [] then o.leftover else 0 }

  /** After these answers the connection is closed: the request answered last does not ask to stay, or
      the first answer has no file and so cannot replace a length left over. */
  predicate EndsAfter(done: seq<Exchange>, o: Origin, srcDir: string) {
    done != [] && (
      var e := done[|done| - 1];
      !AsksToStay(e) || (|done| == 1 && o.leftover > 0 && !HasFile(e, srcDir)))
  }

  /** ... and the connection's state agrees with what is armed. */
  ghost predicate Along(c: HttpConn, action: Action, o: Origin, p: Progress, srcDir: string)
    reads c, c.readBuff, c.readBuff.data, c.writeBuff, c.writeBuff.data, c.request, c.response
  {
    && c.Valid() && Sends(c.life, o, p, srcDir) && Receives(c.received, c.readBuff.Content(), o, p)
    && match action
       case ArmRead => c.Ready() && p.current.None? && p.late == [] && c.len1 == Carried(p.done, o)
       case ArmWrite =>
         && c.Staged() && c.Fits() && c.wire == p.part && p.late == []
         && p.current.Some? && c.staged == Answer(p.current.value, srcDir)
         && c.request.Snapshot() == ParsedText(p.current.value).request
         && (c.iovCnt == 2 <==> HasFile(p.current.value, srcDir)) && (c.iovCnt != 2 ==> c.len1 == Carried(p.done, o))
       case CloseIt => true
  }

  lemma NothingSent(c: HttpConn, srcDir: string)
    requires c.Valid() && c.Ready()
    ensures var o := Origin(c.life, c.received, c.readBuff.Content(), c.len1);
            Along(c, ArmRead, o, NOTHING_YET, srcDir)
            && !EndsAfter(NOTHING_YET.done, o, srcDir) && NoneEndsBefore(NOTHING_YET.done, o, srcDir)
  {
  }

  /** The part sent grew by the bytes the kernel took, and perhaps to the whole answer. */
  lemma PartGrows(life0: seq<Byte>, life: seq<Byte>, o: Origin, p: Progress,
                  sent: seq<Byte>, unsent: seq<Byte>, srcDir: string)
    requires Sends(life0, o, p, srcDir) && Grew(p.part, sent, life0, life)
    requires p.current.Some? && sent + unsent == Answer(p.current.value, srcDir)
    ensures Sends(life, o, p.(part := sent), srcDir)
    ensures unsent == [] ==> Sends(life, o, Finished(p), srcDir)
  {
    hide Answers, Answer, Grew;
    OneMoreAnswer(o.life, p.done, p.current.value, srcDir);
    BehindTheSame(o.life + Answers(p.done, srcDir), p.part, sent, life0, life);
    assert sent <= sent + unsent;
  }

  lemma BehindTheSame(front: seq<Byte>, part: seq<Byte>, sent: seq<Byte>, life0: seq<Byte>, life: seq<Byte>)
    requires life0 == front + part && Grew(part, sent, life0, life)
    ensures life == front + sent && part <= sent
  {
    assert sent == part + sent[|part|..];
    Regroup(front, part, sent[|part|..]);
  }

  /** The current answer is complete. */
  function Finished(p: Progress): Progress
    requires p.current.Some?
  {
    p.(done := p.done + [p.current.value], current := None, part := [])
  }

  lemma FinishedReceives(received: seq<Byte>, unread: seq<Byte>, o: Origin, p: Progress)
    requires Receives(received, unread, o, p) && p.current.Some?
    ensures Receives(received, unread, o, Finished(p)) && Finished(p).Begun() == p.Begun()
  {
    hide Chained, Flatten, LeftUnread;
    assert Finished(p).Begun() == p.Begun();
  }

  /** The next answer begins, to what was unread and what has arrived. */
  function Next(p: Progress, e: Exchange, arrived: seq<Byte>): Progress {
    p.(current := Some(e), part := [], arrivals := p.arrivals + [arrived])
  }

  lemma NextAnswer(life: seq<Byte>, received: seq<Byte>, unread: seq<Byte>, o: Origin, p: Progress,
                   e: Exchange, arrived: seq<Byte>, srcDir: string)
    requires Sends(life, o, p, srcDir) && Receives(received, unread, o, p)
    requires p.current.None? && p.late == [] && e.text == unread + arrived
    ensures Sends(life, o, Next(p, e, arrived), srcDir)
    ensures Receives(received + arrived, Leftover(e), o, Next(p, e, arrived))
    ensures Next(p, e, arrived).Begun() == p.Begun() + [e]
  {
    hide Answers, Answer, Leftover, Chained;
    var q := Next(p, e, arrived);
    assert p.Begun() == p.done && q.Begun() == p.done + [e];
    ChainedMore(p.done, p.arrivals, o, e, arrived);
    FlattenMore(o.received, p.arrivals, arrived);
    hide LeftUnread, Flatten;
    assert LeftUnread(p.done, o) + [] == LeftUnread(p.done, o);
    assert LeftUnread(q.Begun(), o) == Leftover(e) by { LeftByLast(p.done, e, o); }
    assert Leftover(e) + [] == Leftover(e);
    assert o.received + Flatten(p.arrivals) + [] == o.received + Flatten(p.arrivals);
    assert o.received + Flatten(q.arrivals) + [] == o.received + Flatten(q.arrivals);
  }

  lemma LeftByLast(begun: seq<Exchange>, e: Exchange, o: Origin)
    ensures LeftUnread(begun + [e], o) == Leftover(e)
  {
    hide Leftover;
  }

  lemma FlattenMore(front: seq<Byte>, pieces: seq<seq<Byte>>, piece: seq<Byte>)
    ensures front + Flatten(pieces + [piece]) == front + Flatten(pieces) + piece
  {
    assert (pieces + [piece])[..|pieces|] == pieces;
  }

  lemma ChainedMore(begun: seq<Exchange>, arrivals: seq<seq<Byte>>, o: Origin, e: Exchange, arrived: seq<Byte>)
    requires Chained(begun, arrivals, o) && e.text == LeftUnread(begun, o) + arrived
    ensures Chained(begun + [e], arrivals + [arrived], o)
  {
    hide LeftUnread;
    var all, pieces := begun + [e], arrivals + [arrived];
    forall k | 0 <= k < |all|
      ensures all[k].text == LeftUnread(all[..k], o) + pieces[k]
    {
      assert all[..k] == if k < |begun| then begun[..k] else begun;
    }
  }

  lemma LateArrival(received: seq<Byte>, unread: seq<Byte>, o: Origin, p: Progress, arrived: seq<Byte>)
    requires Receives(received, unread, o, p) && p.late == []
    ensures Receives(received + arrived, unread + arrived, o, p.(late := arrived))
  {
    hide Chained, Flatten, LeftUnread;
    assert p.(late := arrived).Begun() == p.Begun();
    NoArrival(o.received + Flatten(p.arrivals));
    NoArrival(LeftUnread(p.Begun(), o));
  }

  lemma NoArrival(s: seq<Byte>)
    ensures s + [] == s
  {
  }

  /** A turn begins no exchange, or one with its own file system and database. */
  ghost predicate Follows(p: Progress, q: Progress, t: Turn) {
    q.Begun() == p.Begun() || exists e :: q.Begun() == p.Begun() + [e] && e.fs == t.fs && e.verify == t.verify
  }

  /** A read task's turn. */
  method ReadTurn(c: HttpConn, t: Turn, srcDir: string, ghost o: Origin, ghost p: Progress)
    returns (action: Action, ghost q: Progress)
    requires Along(c, ArmRead, o, p, srcDir) && Lawful(c.isET, t) && srcDir != ""
    modifies c, c.readBuff, c.readBuff.data, c.writeBuff, c.writeBuff.data, c.request, c.response
    ensures c.readBuff.data == old(c.readBuff.data) || fresh(c.readBuff.data)
    ensures c.writeBuff.data == old(c.writeBuff.data) || fresh(c.writeBuff.data)
    ensures Along(c, action, o, q, srcDir) && Follows(p, q, t) && q.done == p.done
    ensures action == CloseIt ==> q.current.None?
    ensures c.isET && Staying(t) ==> action != CloseIt
  {
    hide Answer, Answers, Leftover, HasFile, Arrived, Receives, ObeysWritev, HttpResponses.Manageable;
    hide HttpConn.Staged, HttpConn.Fits, HttpRequests.ParseText;
    ghost var unread, received := c.readBuff.Content(), c.received;
    ghost var rooms;
    action, rooms := c.OnRead(t.net, t.rounds, t.fs, srcDir, t.verify);
    ghost var arrived := Arrived(t.net, rooms);
    if action == ArmWrite {
      ghost var e := Exchange(unread + arrived, t.fs, t.verify);
      NextAnswer(c.life, received, unread, o, p, e, arrived, srcDir);
      q := Next(p, e, arrived);
    } else {
      LateArrival(received, unread, o, p, arrived);
      q := p.(late := arrived);
      assert q.Begun() == p.Begun();
    }
  }

  /** A write task's turn. */
  method WriteTurn(c: HttpConn, t: Turn, srcDir: string, ghost o: Origin, ghost p: Progress)
    returns (action: Action, ghost q: Progress)
    requires Along(c, ArmWrite, o, p, srcDir) && Lawful(c.isET, t) && srcDir != ""
    modifies c, c.readBuff, c.readBuff.data, c.writeBuff, c.writeBuff.data, c.request, c.response
    ensures c.readBuff.data == old(c.readBuff.data)
    ensures c.writeBuff.data == old(c.writeBuff.data) || fresh(c.writeBuff.data)
    ensures Along(c, action, o, q, srcDir) && Follows(p, q, t) && p.current.Some?
    ensures c.isET && Smooth(t) && action == CloseIt ==> q.current.None?
    ensures c.isET && Smooth(t) ==> if q.done == p.done then action != CloseIt
              else q.done == p.done + [p.current.value] && (action == CloseIt <==> EndsAfter(q.done, o, srcDir))
  {
    hide Answer, Answers, Leftover, HasFile, Settled, Grew, Sends, Receives, ObeysReadv, HttpResponses.Manageable;
    hide HttpConn.Staged, Outcome, HttpRequests.ParseText, HttpRequests.KeepAlive;
    ghost var unread, life := c.readBuff.Content(), c.life;
    WireIsPart(c);
    FinishedReceives(c.received, unread, o, p);
    var ret, writeErrno, toWrite;
    ghost var sent, unsent, calls;
    action, ret, writeErrno, toWrite, sent, unsent, calls := c.OnWrite(t.kernel, t.errno, t.fs, srcDir, t.verify);
    PartGrows(life, c.life, o, p, sent, unsent, srcDir);
    if toWrite == 0 {
      q := Finished(p);
      if action == ArmWrite {
        ghost var e := Exchange(unread, t.fs, t.verify);
        NoArrival(unread);
        NoArrival(c.received);
        NextAnswer(c.life, c.received, unread, o, q, e, [], srcDir);
        q := Next(q, e, []);
      }
    } else if action == CloseIt && unsent == [] {
      q := Finished(p);
    } else {
      q := p.(part := sent);
      SameReceives(c.received, unread, o, p, sent);
    }
  }

  lemma WireIsPart(c: HttpConn)
    requires c.Staged()
    ensures c.wire <= c.staged && (c.iovCnt == 1 || c.iovCnt == 2)
  {
  }

  lemma SameReceives(received: seq<Byte>, unread: seq<Byte>, o: Origin, p: Progress, part: seq<Byte>)
    requires Receives(received, unread, o, p)
    ensures Receives(received, unread, o, p.(part := part)) && p.(part := part).Begun() == p.Begun()
  {
    hide Chained, Flatten, LeftUnread;
  }

  /** What a receiver makes of all that was sent: exactly the bodies of the complete answers, and the
      beginning of the one cut short. */
  ghost predicate Understood(life: seq<Byte>, p: Progress, srcDir: string) {
    ReceiveAll(life) ==
    if p.current.Some? && p.part == Answer(p.current.value, srcDir) then (Bodies(p.Begun(), srcDir), [])
    else (Bodies(p.done, srcDir), p.part)
  }

  lemma ReceiverUnderstands(life: seq<Byte>, o: Origin, p: Progress, srcDir: string)
    requires Sends(life, o, p, srcDir) && o.life == []
    ensures Understood(life, p, srcDir)
  {
    hide Answer, AnswerBody, ReceiveAll;
    AnswersAreTakenOff(p.done, srcDir, p.part);
    assert [] + Answers(p.done, srcDir) == Answers(p.done, srcDir);
    NothingIsReceived();
    var bodies := Bodies(p.done, srcDir);
    assert bodies + [] == bodies;
    if p.current.Some? {
      var e := p.current.value;
      assert (p.done + [e])[..|p.done|] == p.done;
      assert Answer(e, srcDir) + "" == Answer(e, srcDir);
      AnswerIsTakenOff(e, srcDir, "");
      assert [AnswerBody(e, srcDir)] + [] == [AnswerBody(e, srcDir)];
      if p.part != Answer(e, srcDir) { CutShortIsLeft(e, srcDir, p.part); }
    }
  }

  /** Every exchange took place in one of the turns. */
  ghost predicate TookPlace(begun: seq<Exchange>, turns: seq<Turn>) {
    forall e | e in begun :: exists t | t in turns :: e.fs == t.fs && e.verify == t.verify
  }

  /** No answer but perhaps the last one closes the connection. */
  ghost predicate NoneEndsBefore(done: seq<Exchange>, o: Origin, srcDir: string) {
    forall k | 0 < k < |done| :: !EndsAfter(done[..k], o, srcDir)
  }

  lemma OneMoreDone(done: seq<Exchange>, e: Exchange, o: Origin, srcDir: string)
    requires NoneEndsBefore(done, o, srcDir) && !EndsAfter(done, o, srcDir)
    ensures NoneEndsBefore(done + [e], o, srcDir)
  {
    hide EndsAfter;
    forall k | 0 < k < |done + [e]|
      ensures !EndsAfter((done + [e])[..k], o, srcDir)
    {
      assert (done + [e])[..k] == if k < |done| then done[..k] else done;
    }
  }

  /** The whole life of a connection, on any slot that `Init` has made ready, whatever length a former
      connection left there.  What it sends are complete answers one after the other and then the
      beginning of one more, so a receiver finds exactly their bodies.  What each one answers is what
      the one before left unread and what has arrived since; every byte received is answered, still
      unread, or came too late.  In edge-triggered mode, unless a write fails, no answer that was begun
      is left incomplete by a close; and if the peer stays, the connection is closed exactly after the
      first answer to a request that does not ask to stay, or that finds a length left over and no file
      to replace it. */
  method Serve(c: HttpConn, turns: seq<Turn>, srcDir: string) returns (action: Action, ghost p: Progress)
    requires c.Valid() && c.Ready() && srcDir != ""
    requires forall i | 0 <= i < |turns| :: Lawful(c.isET, turns[i])
    modifies c, c.readBuff, c.readBuff.data, c.writeBuff, c.writeBuff.data, c.request, c.response
    ensures Along(c, action, old(Origin(c.life, c.received, c.readBuff.Content(), c.len1)), p, srcDir)
    ensures TookPlace(p.Begun(), turns)
    ensures old(c.life) == [] ==> Understood(c.life, p, srcDir)
    ensures AllSmooth(c.isET, turns) && action == CloseIt ==> p.current.None?
    ensures AllSmooth(c.isET, turns) && AllStaying(turns) ==>
              var o := old(Origin(c.life, c.received, c.readBuff.Content(), c.len1));
              (action == CloseIt <==> EndsAfter(p.done, o, srcDir)) && NoneEndsBefore(p.done, o, srcDir)
  {
    hide Along, Lawful, Smooth, Staying, Answer, Understood, Follows, EndsAfter, NoneEndsBefore;
    ghost var o := Origin(c.life, c.received, c.readBuff.Content(), c.len1);
    action, p := ArmRead, NOTHING_YET;
    NothingSent(c, srcDir);
    for i := 0 to |turns|
      invariant c.readBuff.data == old(c.readBuff.data) || fresh(c.readBuff.data)
      invariant c.writeBuff.data == old(c.writeBuff.data) || fresh(c.writeBuff.data)
      invariant Along(c, action, o, p, srcDir) && TookPlace(p.Begun(), turns)
      invariant AllSmooth(c.isET, turns) && action == CloseIt ==> p.current.None?
      invariant AllSmooth(c.isET, turns) && AllStaying(turns) ==>
                  (action == CloseIt <==> EndsAfter(p.done, o, srcDir)) && NoneEndsBefore(p.done, o, srcDir)
    {
      ghost var before := p;
      match action {
        case ArmRead => action, p := ReadTurn(c, turns[i], srcDir, o, p);
        case ArmWrite =>
          action, p := WriteTurn(c, turns[i], srcDir, o, p);
          if p.done != before.done && AllSmooth(c.isET, turns) && AllStaying(turns) {
            OneMoreDone(before.done, before.current.value, o, srcDir);
          }
        case CloseIt => break;
      }
      MoreTookPlace(before, p, turns, i);
    }
    if o.life == [] { LifeIsUnderstood(c, action, o, p, srcDir); }
  }

  /** Edge-triggered, and no write fails other than for want of room. */
  ghost predicate AllSmooth(isET: bool, turns: seq<Turn>) { isET && forall i | 0 <= i < |turns| :: Smooth(turns[i]) }

  ghost predicate AllStaying(turns: seq<Turn>) { forall i | 0 <= i < |turns| :: Staying(turns[i]) }

  lemma MoreTookPlace(p: Progress, q: Progress, turns: seq<Turn>, i: nat)
    requires i < |turns| && Follows(p, q, turns[i]) && TookPlace(p.Begun(), turns)
    ensures TookPlace(q.Begun(), turns)
  {
    assert turns[i] in turns;
  }

  lemma LifeIsUnderstood(c: HttpConn, action: Action, o: Origin, p: Progress, srcDir: string)
    requires Along(c, action, o, p, srcDir) && o.life == []
    ensures Understood(c.life, p, srcDir)
  {
    hide Sends, Receives, Understood, HttpConn.Staged;
    ReceiverUnderstands(c.life, o, p, srcDir);
  }

  // ---------- Three ways to lose what is there ----------

  /** A kernel that takes all but one byte. */
  function AllButOne(): Kernel { (call: nat, offered: nat) => if offered <= 1 then offered else offered - 1 }

  /** A level-triggered connection whose kernel takes all but one byte is closed, without any error, with
      its answer cut short: that byte is still pending and the others are on the wire. */
  method LevelTriggeredCutsShort(c: HttpConn, fs: HttpResponses.FileSystem, srcDir: string,
                                 verify: HttpRequests.Verifier)
    returns (action: Action, ret: int, ghost calls: nat)
    requires c.Valid() && c.Staged() && c.Tidy() && HttpResponses.Mappable(fs) && srcDir != ""
    requires !c.isET && c.Offered() >= 2 && c.len0 + c.len1 < 0x8000_0000
    modifies c, c.readBuff, c.readBuff.data, c.writeBuff, c.writeBuff.data, c.request, c.response
    ensures action == CloseIt && ret > 0
    ensures Sending(ret, calls, 1) == Outcome(false, AllButOne(), 0, old(c.Offered()), 0)
    ensures c.Staged() && c.staged == old(c.staged) && |c.Pending()| == 1
    ensures Grew(old(c.wire), c.wire, old(c.life), c.life)
  {
    hide HttpConn.Segmented, HttpConn.Idle, Answer, Settled;
    c.LengthsAddUp();
    assert Outcome(false, AllButOne(), 0, c.Offered(), 0) == Sending(c.Offered() - 1, 1, 1);
    hide Outcome;
    var writeErrno, toWrite;
    ghost var sent, unsent;
    action, ret, writeErrno, toWrite, sent, unsent, calls := c.OnWrite(AllButOne(), call => EAGAIN, fs, srcDir, verify);
  }

  /** A peer that sends a whole request and then ends its side is not answered: the request has been
      received and stays unread, and nothing is sent. */
  method EndOfFileDropsRequest(c: HttpConn, text: string, fs: HttpResponses.FileSystem, srcDir: string,
                               verify: HttpRequests.Verifier)
    returns (action: Action, ghost rooms: seq<nat>)
    requires c.Valid() && c.isET && HttpResponses.Mappable(fs) && srcDir != "" && 0 < |text| <= SPILL_SIZE
    modifies c, c.readBuff, c.readBuff.data, c.writeBuff, c.writeBuff.data, c.request, c.response
    ensures c.Valid() && action == CloseIt
    ensures ReadOut(true, TextThen(text, Moved([])), rooms) && c.received == old(c.received) + text
    ensures c.readBuff.Content() == old(c.readBuff.Content()) + text && c.life == old(c.life)
  {
    hide HttpConn.Staged, HttpConn.Segmented, HttpConn.Idle, HttpConn.Tidy, Answer, Arrived;
    action, rooms := c.OnRead(TextThen(text, Moved([])), 1, fs, srcDir, verify);
    TextIsAll(rooms, text, Moved([]));
  }

  /** A socket that holds a text and then answers `stop`. */
  function TextThen(text: string, stop: IoResult): Source {
    (call: nat, room: nat) => if call == 0 && |text| <= room then Moved(text) else stop
  }

  lemma TextThenObeys(text: string, stop: IoResult)
    requires HttpConns.Stops(stop)
    ensures ObeysReadv(TextThen(text, stop)) && EndsBy(TextThen(text, stop), 1)
  {
  }

  lemma TextIsAll(rooms: seq<nat>, text: string, stop: IoResult)
    requires HttpConns.Stops(stop) && 0 < |text| <= SPILL_SIZE && ReadOut(true, TextThen(text, stop), rooms)
    ensures |rooms| == 2 && Arrived(TextThen(text, stop), rooms) == text
    ensures TextThen(text, stop)(|rooms| - 1, rooms[|rooms| - 1]) == stop
  {
    TwoReads(rooms, text, stop);
    hide ReadOut;
    var net := TextThen(text, stop);
    assert rooms[..1] == [rooms[0]] && rooms[..1][..0] == [];
    assert Arrived(net, rooms[..1]) == Arrived(net, []) + Delivered(net(0, rooms[0])) == text;
    assert Arrived(net, rooms) == Arrived(net, rooms[..1]) + Delivered(net(1, rooms[1]));
    assert Delivered(stop) == [];
    NoArrival(text);
  }

  lemma TwoReads(rooms: seq<nat>, text: string, stop: IoResult)
    requires HttpConns.Stops(stop) && 0 < |text| <= SPILL_SIZE && ReadOut(true, TextThen(text, stop), rooms)
    ensures |rooms| == 2 && |text| <= rooms[0]
  {
    var net := TextThen(text, stop);
    assert !HttpConns.Stops(net(0, rooms[0]));
    assert |rooms| > 1 ==> HttpConns.Stops(net(1, rooms[1]));
  }

  /** `GET /f HTTP/1.1` that asks to be kept alive. */
  function KeepMe(): string {
    HttpRequests.PrintRequest("GET", "/f", "1.1", [HttpRequests.Field("Connection", "keep-alive", true)], "")
  }

  function KeepMeParsed(verify: HttpRequests.Verifier): HttpRequests.Parsed {
    HttpRequests.ParseText(HttpRequests.BLANK, KeepMe(), verify)
  }

  lemma KeepMeIsAccepted(verify: HttpRequests.Verifier)
    ensures KeepMeParsed(verify).ok && HttpRequests.KeepAlive(KeepMeParsed(verify).request)
    ensures KeepMeParsed(verify).request.path == "/f" && 0 < |KeepMe()| <= SPILL_SIZE
  {
    hide HttpRequests.ParseText;
    var fields := [HttpRequests.Field("Connection", "keep-alive", true)];
    assert fields[1..] == [];
    HttpRequests.ParseUndoesPrint("GET", "/f", "1.1", fields, "", verify);
  }

  /** The answer to it has a file exactly when the file is there. */
  lemma KeepMeFile(bytes: string, verify: HttpRequests.Verifier)
    requires !HttpResponses.ReadsMinusOne(bytes)
    ensures HasFile(Exchange(KeepMe(), OneFile(bytes), verify), "r") && !HasFile(Exchange(KeepMe(), map[], verify), "r")
  {
    KeepMeIsAccepted(verify);
    hide HttpRequests.ParseText, KeepMe;
    assert "r" + "/f" == "r/f";
  }

  function OneFile(bytes: string): HttpResponses.FileSystem {
    map["r/f" := HttpResponses.FileInfo(false, true, true, bytes)]
  }

  /** A file is asked for on a fresh connection and the peer resets it before any byte is sent. */
  method CloseBeforeFile(c: HttpConn, bytes: string, verify: HttpRequests.Verifier) returns (action: Action)
    requires c.Valid() && c.isET && c.Ready() && c.readBuff.Content() == []
    requires bytes != "" && |bytes| <= LARGEST && !HttpResponses.ReadsMinusOne(bytes)
    modifies c, c.readBuff, c.readBuff.data, c.writeBuff, c.writeBuff.data, c.request, c.response
    ensures c.readBuff.data == old(c.readBuff.data) || fresh(c.readBuff.data)
    ensures c.writeBuff.data == old(c.writeBuff.data) || fresh(c.writeBuff.data)
    ensures c.Valid() && action == CloseIt && 0 < c.len1 <= LARGEST
  {
    KeepMeIsAccepted(verify);
    KeepMeFile(bytes, verify);
    hide KeepMe, OneFile, HasFile, Answer, HttpConn.StagedFor, HttpConn.Staged;
    OneFileIsFine(bytes);
    ghost var before := c.len1;
    action := AskOnce(c, KeepMe(), OneFile(bytes), verify);
    StagedWithFile(c, Exchange(KeepMe(), OneFile(bytes), verify), "r", before);
    action := ResetBeforeSending(c, OneFile(bytes), verify);
  }

  lemma StagedWithFile(c: HttpConn, e: Exchange, srcDir: string, before: nat)
    requires c.Valid() && c.StagedFor(e, srcDir, before) && HasFile(e, srcDir)
    ensures c.Staged() && c.iovCnt == 2 && c.len1 > 0
  {
  }

  /** The first write fails for good, and the lengths stay as they are. */
  method ResetBeforeSending(c: HttpConn, fs: HttpResponses.FileSystem, verify: HttpRequests.Verifier)
    returns (action: Action)
    requires c.Valid() && c.Staged() && c.Fits() && c.iovCnt == 2 && c.len1 > 0 && HttpResponses.Mappable(fs)
    modifies c, c.readBuff, c.readBuff.data, c.writeBuff, c.writeBuff.data, c.request, c.response
    ensures c.readBuff.data == old(c.readBuff.data)
    ensures c.writeBuff.data == old(c.writeBuff.data) || fresh(c.writeBuff.data)
    ensures c.Valid() && action == CloseIt && c.len1 == old(c.len1)
  {
    hide Answer, Leftover, HttpConn.Segmented, Settled, Grew;
    var kernel: Kernel := (call: nat, offered: nat) => -1;
    var ret, writeErrno, toWrite;
    ghost var sent, unsent, calls;
    action, ret, writeErrno, toWrite, sent, unsent, calls := c.OnWrite(kernel, call => 104, fs, "r", verify);
  }

  lemma OneFileIsFine(bytes: string)
    requires bytes != "" && |bytes| <= LARGEST
    ensures HttpResponses.Mappable(OneFile(bytes)) && HttpResponses.Manageable(OneFile(bytes))
  {
  }

  /** Something arrives on an idle connection, and the socket stays open. */
  method ReadOnce(c: HttpConn, net: Source, fs: HttpResponses.FileSystem, verify: HttpRequests.Verifier)
    returns (action: Action, ghost rooms: seq<nat>)
    requires c.Valid() && c.isET && c.Ready() && ObeysReadv(net) && EndsBy(net, 1)
    requires HttpResponses.Mappable(fs) && HttpResponses.Manageable(fs)
    modifies c, c.readBuff, c.readBuff.data, c.writeBuff, c.writeBuff.data, c.request, c.response
    ensures c.readBuff.data == old(c.readBuff.data) || fresh(c.readBuff.data)
    ensures c.writeBuff.data == old(c.writeBuff.data) || fresh(c.writeBuff.data)
    ensures ReadOut(true, net, rooms) && c.received == old(c.received) + Arrived(net, rooms) && c.life == old(c.life)
    ensures c.Valid() && (net(|rooms| - 1, rooms[|rooms| - 1]) == Failed(EAGAIN) ==> action != CloseIt)
    ensures action != CloseIt && Arrived(net, rooms) != [] ==>
              var e := Exchange(old(c.readBuff.Content()) + Arrived(net, rooms), fs, verify);
              action == ArmWrite && c.Fits() && c.StagedFor(e, "r", old(c.len1)) && c.staged == Answer(e, "r")
  {
    hide HasFile, Answer, Leftover, Arrived, HttpConn.StagedFor, HttpConn.Fits, ObeysReadv, EndsBy;
    hide HttpResponses.Manageable, HttpResponses.Mappable;
    action, rooms := c.OnRead(net, 1, fs, "r", verify);
  }

  /** A text arrives on an idle connection. */
  method AskOnce(c: HttpConn, text: string, fs: HttpResponses.FileSystem, verify: HttpRequests.Verifier)
    returns (action: Action)
    requires c.Valid() && c.isET && c.Ready() && c.readBuff.Content() == []
    requires 0 < |text| <= SPILL_SIZE && HttpResponses.Mappable(fs) && HttpResponses.Manageable(fs)
    modifies c, c.readBuff, c.readBuff.data, c.writeBuff, c.writeBuff.data, c.request, c.response
    ensures c.Valid() && action == ArmWrite && c.Fits()
    ensures c.readBuff.data == old(c.readBuff.data) || fresh(c.readBuff.data)
    ensures c.writeBuff.data == old(c.writeBuff.data) || fresh(c.writeBuff.data)
    ensures c.StagedFor(Exchange(text, fs, verify), "r", old(c.len1))
    ensures c.staged == Answer(Exchange(text, fs, verify), "r")
    ensures c.received == old(c.received) + text && c.life == old(c.life)
  {
    TextThenObeys(text, Failed(EAGAIN));
    hide HasFile, Answer, Leftover, Arrived, ReadOut, HttpConn.StagedFor, HttpConn.Fits, HttpConn.Ready;
    hide HttpResponses.Manageable, HttpResponses.Mappable, TextThen, ObeysReadv, EndsBy;
    NothingBefore(text);
    ghost var rooms;
    action, rooms := ReadOnce(c, TextThen(text, Failed(EAGAIN)), fs, verify);
    TextIsAll(rooms, text, Failed(EAGAIN));
  }

  /** A kernel that takes everything. */
  function TakesAll(): Kernel { (call: nat, offered: nat) => offered }

  /** The kernel takes everything of an answer without a file, on a slot with a length left over. */
  method SendAll(c: HttpConn, verify: HttpRequests.Verifier) returns (action: Action, ret: int, ghost calls: nat)
    requires c.Valid() && c.isET && c.Staged() && c.Fits() && c.iovCnt != 2 && c.len1 > 0
    modifies c, c.readBuff, c.readBuff.data, c.writeBuff, c.writeBuff.data, c.request, c.response
    ensures Sending(0, calls, 0) == Outcome(true, TakesAll(), 0, old(c.Offered()), old(c.len1))
    ensures ret == 0 && action == CloseIt && c.wire == c.staged == old(c.staged)
    ensures Grew(old(c.wire), c.wire, old(c.life), c.life)
    ensures c.request.Snapshot() == old(c.request.Snapshot()) && c.received == old(c.received)
    ensures c.iovCnt != 2 && c.len1 == old(c.len1)
  {
    hide Answer, Leftover, HttpConn.StagedFor, HttpConn.Segmented, Settled, Grew;
    c.LengthsAddUp();
    EverythingIsTaken(c.Offered(), c.len1);
    hide Outcome;
    var writeErrno, toWrite;
    ghost var sent, unsent;
    action, ret, writeErrno, toWrite, sent, unsent, calls := c.OnWrite(TakesAll(), call => EAGAIN, map[], "r", verify);
  }

  lemma EverythingIsTaken(offered: nat, stale: nat)
    ensures var r := Outcome(true, TakesAll(), 0, offered, stale); r.len == 0 && r.left == 0
  {
    assert TakesAll()(0, offered) == offered && TakesAll()(1, 0) == 0;
  }

  lemma StagedWithoutFile(c: HttpConn, verify: HttpRequests.Verifier, before: nat)
    requires c.Valid() && c.StagedFor(Exchange(KeepMe(), map[], verify), "r", before)
    ensures c.Staged() && c.iovCnt != 2 && c.len1 == before && c.wire == []
    ensures c.request.Snapshot() == KeepMeParsed(verify).request
  {
    KeepMeIsAccepted(verify);
    KeepMeFile("", verify);
    hide KeepMe, HasFile, Leftover, HttpRequests.ParseText, HttpRequests.KeepAlive;
  }

  /** The peer resets a connection in mid-file; the slot's next one asks for a file that is not there. */
  method AskAgain(c: HttpConn, bytes: string, verify: HttpRequests.Verifier)
    requires c.Valid() && c.isET && c.Ready() && c.readBuff.Content() == []
    requires bytes != "" && |bytes| <= LARGEST && !HttpResponses.ReadsMinusOne(bytes)
    modifies c, c.readBuff, c.readBuff.data, c.writeBuff, c.writeBuff.data, c.request, c.response
    ensures c.readBuff.data == old(c.readBuff.data) || fresh(c.readBuff.data)
    ensures c.writeBuff.data == old(c.writeBuff.data) || fresh(c.writeBuff.data)
    ensures c.Valid() && c.Staged() && c.Fits() && c.iovCnt != 2 && c.len1 > 0 && c.wire == [] && c.life == []
    ensures c.received == KeepMe() && c.request.Snapshot() == KeepMeParsed(verify).request
    ensures c.staged == Answer(Exchange(KeepMe(), map[], verify), "r")
  {
    KeepMeIsAccepted(verify);
    hide KeepMe, KeepMeParsed, Answer, HttpConn.Staged, HttpConn.StagedFor, HttpRequests.KeepAlive;
    var action := CloseBeforeFile(c, bytes, verify);
    var count := c.Close(1);
    count := c.Init(5, count);
    ghost var before := c.len1;
    action := AskOnce(c, KeepMe(), map[], verify);
    StagedWithoutFile(c, verify, before);
    NothingBefore(KeepMe());
  }

  /** A length left over from a close in mid-file ends the slot's next connection after an answer
      without a file: the request that was received asks to stay, the whole answer to it is on the wire,
      and no error happened. */
  method LeftoverEndsKeepAlive(c: HttpConn, bytes: string, verify: HttpRequests.Verifier)
    returns (action: Action, ret: int, ghost calls: nat)
    requires c.Valid() && c.isET && c.Ready() && c.readBuff.Content() == []
    requires bytes != "" && |bytes| <= LARGEST && !HttpResponses.ReadsMinusOne(bytes)
    modifies c, c.readBuff, c.readBuff.data, c.writeBuff, c.writeBuff.data, c.request, c.response
    ensures c.received == KeepMe() && AsksToStay(Exchange(KeepMe(), map[], verify))
    ensures c.request.Snapshot() == KeepMeParsed(verify).request && c.request.IsKeepAlive()
    ensures c.life == c.wire == Answer(Exchange(KeepMe(), map[], verify), "r")
    ensures c.iovCnt != 2 && c.len1 > 0 && action == CloseIt
    ensures Sending(ret, calls, 0) == Outcome(true, TakesAll(), 0, |c.life|, c.len1) && ret == 0
  {
    KeepMeIsAccepted(verify);
    AskAgain(c, bytes, verify);
    StagedLength(c);
    hide HttpConn.Staged, HttpConn.Fits, HttpRequests.KeepAlive, HttpRequests.ParseText, KeepMe, Answer;
    action, ret, calls := SendAll(c, verify);
    AllFromStart(c.wire, c.life);
  }

  lemma StagedLength(c: HttpConn)
    requires c.Staged() && c.wire == []
    ensures c.Offered() == |c.staged|
  {
  }

  lemma AllFromStart(wire: seq<Byte>, life: seq<Byte>)
    requires Grew([], wire, [], life)
    ensures life == wire
  {
  }
}
