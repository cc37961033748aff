/** One connection's data path: code/http/http_conn.cpp and the handlers of
    code/server/web_server.cpp:153-192 that drive it. */
module HttpConns {
  import opened Machine
  import opened Text
  import opened ByteBuffer
  import HttpRequests
  import HttpResponses

  const EAGAIN := 11

  /** The longest file that leaves room for a head in a 31-bit total. */
  const LARGEST := 0x7FFF_FFFF - 1024

  /** The results of successive `writev` calls: call number, bytes offered. */
  type Kernel = (nat, nat) -> int

  /** What writev(2) promises of a result: an error, or at most what was offered. */
  ghost predicate ObeysWritev(kernel: Kernel) {
    forall call: nat, offered: nat :: -1 <= kernel(call, offered) <= offered
  }

  /** ... and zero only when nothing was offered. */
  ghost predicate MakesProgress(kernel: Kernel) {
    forall call: nat, offered: nat :: offered > 0 ==> kernel(call, offered) != 0
  }

  /** The last result of a write loop, the calls it made, and what it left unsent. */
  datatype Sending = Sending(len: int, calls: nat, left: nat)

  /** The write loop from its call number `call` on, with `offered` bytes to send and `stale` bytes
      counted besides. */
  ghost function Outcome(isET: bool, kernel: Kernel, call: nat, offered: nat, stale: nat): Sending
    requires ObeysWritev(kernel)
    decreases offered
  {
    var len := kernel(call, offered);
    if len <= 0 then Sending(len, call + 1, offered)
    else if isET || Int32(offered - len + stale) > 10240 then Outcome(isET, kernel, call + 1, offered - len, stale)
    else Sending(len, call + 1, offered - len)
  }

  /** What is left of `n` bytes when every call so far had its result subtracted. */
  ghost function Remainder(kernel: Kernel, n: nat, calls: nat): nat
    requires ObeysWritev(kernel)
  {
    if calls == 0 then n
    else
      var left := Remainder(kernel, n, calls - 1);
      var len := kernel(calls - 1, left);
      if len > 0 then left - len else left
  }

  /** Call number `k` sends something and leaves more than the level-triggered limit. */
  ghost predicate GoesOn(kernel: Kernel, n: nat, k: nat)
    requires ObeysWritev(kernel)
  {
    kernel(k, Remainder(kernel, n, k)) > 0 && Remainder(kernel, n, k + 1) > 10240
  }

  ghost predicate EndsAt(kernel: Kernel, n: nat, k: nat)
    requires ObeysWritev(kernel)
  {
    (forall j: nat | j < k :: GoesOn(kernel, n, j)) && !GoesOn(kernel, n, k)
  }

  /** Call number `k` is the first to leave at most the limit, none has failed, and something is
      left. */
  ghost predicate GivesUpAt(kernel: Kernel, n: nat, k: nat)
    requires ObeysWritev(kernel)
  {
    EndsAt(kernel, n, k) && kernel(k, Remainder(kernel, n, k)) > 0 && Remainder(kernel, n, k + 1) > 0
  }

  /** In level-triggered mode the loop ends at the first call that does not go on. */
  lemma {:induction false} LevelTriggeredEnd(kernel: Kernel, n: nat, call: nat)
    requires ObeysWritev(kernel) && n < 0x8000_0000 && forall j: nat | j < call :: GoesOn(kernel, n, j)
    ensures var r := Outcome(false, kernel, call, Remainder(kernel, n, call), 0);
            r.calls > call && EndsAt(kernel, n, r.calls - 1) && r.left == Remainder(kernel, n, r.calls)
            && r.len == kernel(r.calls - 1, Remainder(kernel, n, r.calls - 1))
    decreases Remainder(kernel, n, call)
  {
    hide Outcome, Remainder;
    RemainderStep(kernel, n, call);
    OutcomeStep(false, kernel, call, Remainder(kernel, n, call), 0);
    if GoesOn(kernel, n, call) { LevelTriggeredEnd(kernel, n, call + 1); }
  }

  lemma {:induction false} RemainderStep(kernel: Kernel, n: nat, calls: nat)
    requires ObeysWritev(kernel)
    ensures var left := Remainder(kernel, n, calls);
            var len := kernel(calls, left);
            left <= n && Remainder(kernel, n, calls + 1) == if len > 0 then left - len else left
  {
    if calls > 0 { RemainderStep(kernel, n, calls - 1); }
  }

  lemma OneEnd(kernel: Kernel, n: nat, k: nat, last: nat)
    requires ObeysWritev(kernel) && EndsAt(kernel, n, k) && EndsAt(kernel, n, last)
    ensures k == last
  {
    hide GoesOn;
    var both := GoesOn(kernel, n, k) || GoesOn(kernel, n, last);
  }

  /** In level-triggered mode the write loop ends without an error and with bytes unsent exactly
      when the first call that leaves at most the limit leaves something. */
  lemma GivesUpIff(kernel: Kernel, n: nat)
    requires ObeysWritev(kernel) && n < 0x8000_0000
    ensures var r := Outcome(false, kernel, 0, n, 0);
            (r.len > 0 && r.left > 0 <==> exists k: nat :: GivesUpAt(kernel, n, k)) && (r.len > 0 ==> r.left <= 10240)
  {
    LevelTriggeredEnd(kernel, n, 0);
    hide Outcome, Remainder, ObeysWritev;
    var r := Outcome(false, kernel, 0, n, 0);
    assert Remainder(kernel, n, 0) == n;
    assert r.len > 0 ==> r.left <= 10240;
    hide GoesOn, EndsAt;
    if r.len > 0 && r.left > 0 {
      assert GivesUpAt(kernel, n, r.calls - 1);
    }
    forall k: nat | GivesUpAt(kernel, n, k)
      ensures r.len > 0 && r.left > 0
    {
      OneEnd(kernel, n, k, r.calls - 1);
    }
  }

  /** What the last result of a write loop says about the bytes left of `n`.  In edge-triggered
      mode only an error leaves any; in level-triggered mode a few are given up without any error
      in exactly the case `GivesUpAt`. */
  ghost predicate Settled(isET: bool, kernel: Kernel, n: nat, ret: int, left: nat)
    requires ObeysWritev(kernel)
  {
    && (isET && MakesProgress(kernel) ==> left == 0 || ret < 0)
    && (!isET && ret > 0 ==> left <= 10240)
    && (!isET ==> (ret > 0 && left > 0 <==> exists k: nat :: GivesUpAt(kernel, n, k)))
  }

  lemma WriteVerdict(isET: bool, kernel: Kernel, n: nat, stale: nat)
    requires ObeysWritev(kernel) && n + stale < 0x8000_0000
    ensures var r := Outcome(isET, kernel, 0, n, stale);
            r.left <= n && (stale == 0 ==> Settled(isET, kernel, n, r.len, r.left))
  {
    EdgeTriggeredEnd(isET, kernel, 0, n, stale);
    if !isET && stale == 0 { GivesUpIff(kernel, n); }
    hide Outcome;
  }

  lemma {:induction false} EdgeTriggeredEnd(isET: bool, kernel: Kernel, call: nat, offered: nat, stale: nat)
    requires ObeysWritev(kernel)
    ensures var r := Outcome(isET, kernel, call, offered, stale);
            r.left <= offered && (isET && MakesProgress(kernel) ==> r.left == 0 || r.len < 0)
    decreases offered
  {
    hide Int32;
    var len := kernel(call, offered);
    if len > 0 { EdgeTriggeredEnd(isET, kernel, call + 1, offered - len, stale); }
  }

  lemma OutcomeStep(isET: bool, kernel: Kernel, call: nat, offered: nat, stale: nat)
    requires ObeysWritev(kernel)
    ensures var len := kernel(call, offered);
            Outcome(isET, kernel, call, offered, stale)
            == if len > 0 && (isET || Int32(offered - len + stale) > 10240)
               then Outcome(isET, kernel, call + 1, offered - len, stale)
               else Sending(len, call + 1, if len > 0 then offered - len else offered)
  {
  }

  /** The same bytes came behind both. */
  ghost predicate Grew(wire0: seq<Byte>, wire: seq<Byte>, life0: seq<Byte>, life: seq<Byte>) {
    wire0 <= wire && life == life0 + wire[|wire0|..]
  }

  lemma GrewNothing(wire: seq<Byte>, life: seq<Byte>)
    ensures Grew(wire, wire, life, life)
  {
  }

  lemma GrowsBy(wire: seq<Byte>, life: seq<Byte>, more: seq<Byte>)
    ensures Grew(wire, wire + more, life, life + more)
  {
  }

  lemma GrewTwice(wire0: seq<Byte>, wire1: seq<Byte>, wire2: seq<Byte>,
                  life0: seq<Byte>, life1: seq<Byte>, life2: seq<Byte>)
    requires Grew(wire0, wire1, life0, life1) && Grew(wire1, wire2, life1, life2)
    ensures Grew(wire0, wire2, life0, life2)
  {
    assert wire2[|wire0|..] == wire1[|wire0|..] + wire2[|wire1|..];
  }

  /** What the handler asks of epoll when it is done. */
  datatype Action = ArmRead | ArmWrite | CloseIt

  /** The results of successive `readv` calls: call number, room offered. */
  type Source = (nat, nat) -> IoResult

  ghost predicate ObeysReadv(net: Source) {
    forall call: nat, room: nat :: net(call, room).Moved? ==> |net(call, room).bytes| <= room
  }

  /** The calls of one read: in edge-triggered mode all but the last one delivered something. */
  ghost predicate ReadOut(isET: bool, net: Source, rooms: seq<nat>) {
    && rooms != [] && (forall k | 0 <= k < |rooms| :: rooms[k] >= 65535)
    && (!isET ==> |rooms| == 1)
    && (isET ==> Stops(net(|rooms| - 1, rooms[|rooms| - 1])))
    && (isET ==> forall k | 0 <= k < |rooms| - 1 :: !Stops(net(k, rooms[k])))
  }

  lemma ReadEnds(isET: bool, net: Source, rooms: seq<nat>)
    requires rooms != [] && (forall k | 0 <= k < |rooms| :: rooms[k] >= SPILL_SIZE)
    requires |rooms| > 1 ==> isET && forall k | 0 <= k < |rooms| - 1 :: !Stops(net(k, rooms[k]))
    requires isET ==> Stops(net(|rooms| - 1, rooms[|rooms| - 1]))
    ensures ReadOut(isET, net, rooms)
  {
  }

  /** `readv` returned an error or nothing. */
  predicate Stops(r: IoResult) { r.Failed? || r.bytes == [] }

  /** Call number `rounds`, if it comes to that, finds nothing more. */
  ghost predicate EndsBy(net: Source, rounds: nat) { forall room: nat :: Stops(net(rounds, room)) }

  function Delivered(r: IoResult): seq<Byte> { if r.Moved? then r.bytes else [] }

  /** Everything delivered by the first calls, given the room each one had. */
  ghost function Arrived(net: Source, rooms: seq<nat>): seq<Byte> {
    if rooms == [] then []
    else
      var k := |rooms| - 1;
      Arrived(net, rooms[..k]) + Delivered(net(k, rooms[k]))
  }

  // ---------- Responses ----------

  /** A rejected request is answered with code 400 and a closed connection. */
  function ResponseHead(fs: HttpResponses.FileSystem, srcDir: string, p: HttpRequests.Parsed): string {
    HttpResponses.Head(fs, srcDir, p.request.path, p.ok && HttpRequests.KeepAlive(p.request), if p.ok then 200 else 400)
  }

  function ResponseBody(fs: HttpResponses.FileSystem, srcDir: string, p: HttpRequests.Parsed): string {
    HttpResponses.Body(fs, srcDir, p.request.path, if p.ok then 200 else 400)
  }

  function ResponseFile(fs: HttpResponses.FileSystem, srcDir: string, p: HttpRequests.Parsed): Option<string> {
    HttpResponses.SentFile(fs, srcDir, p.request.path, if p.ok then 200 else 400)
  }

  /** One request as it was found in the read buffer, and what answered it. */
  datatype Exchange = Exchange(text: string, fs: HttpResponses.FileSystem, verify: HttpRequests.Verifier)

  function Answer(e: Exchange, srcDir: string): string {
    var p := HttpRequests.ParseText(HttpRequests.BLANK, e.text, e.verify);
    ResponseHead(e.fs, srcDir, p) + ResponseBody(e.fs, srcDir, p)
  }

  /** What follows the blank line of an answer. */
  function AnswerBody(e: Exchange, srcDir: string): string {
    ResponseBody(e.fs, srcDir, HttpRequests.ParseText(HttpRequests.BLANK, e.text, e.verify))
  }

  /** What the parser leaves in the read buffer. */
  function Leftover(e: Exchange): string { HttpRequests.ParseText(HttpRequests.BLANK, e.text, e.verify).rest }

  /** Whether a mapped file is part of the answer. */
  predicate HasFile(e: Exchange, srcDir: string) {
    ResponseFile(e.fs, srcDir, HttpRequests.ParseText(HttpRequests.BLANK, e.text, e.verify)).Some?
  }

  /** An answer in the terms of the response it is made by. */
  lemma AnswerParts(e: Exchange, srcDir: string, before: string, path: string, keepAlive: bool, code: int)
    requires var p := HttpRequests.ParseText(HttpRequests.BLANK, e.text, e.verify);
             path == p.request.path && keepAlive == (p.ok && HttpRequests.KeepAlive(p.request))
             && code == if p.ok then 200 else 400
    ensures before + HttpResponses.Head(e.fs, srcDir, path, keepAlive, code)
            + HttpResponses.Body(e.fs, srcDir, path, code) == before + Answer(e, srcDir)
    ensures HasFile(e, srcDir) <==> HttpResponses.SentFile(e.fs, srcDir, path, code).Some?
  {
    hide HttpResponses.Head, HttpResponses.Body, HttpResponses.SentFile, HttpRequests.ParseText, HttpRequests.KeepAlive;
    Regroup(before, HttpResponses.Head(e.fs, srcDir, path, keepAlive, code),
            HttpResponses.Body(e.fs, srcDir, path, code));
  }

  lemma NothingBefore(s: string)
    ensures [] + s == s
  {
  }

  /** Every answer is framed: whatever is sent next, a receiver is left with its body and what
      follows, and with the body's length announced. */
  lemma AnswerIsReceived(e: Exchange, srcDir: string, next: string)
    ensures var body := AnswerBody(e, srcDir);
            HttpResponses.ReceiveHead(Answer(e, srcDir) + next, None) == Some((Some(|body|), body + next))
  {
    hide HttpResponses.Head, HttpResponses.Body, HttpRequests.ParseText, HttpResponses.ReceiveHead;
    var p := HttpRequests.ParseText(HttpRequests.BLANK, e.text, e.verify);
    var keepAlive, code := p.ok && HttpRequests.KeepAlive(p.request), if p.ok then 200 else 400;
    HttpResponses.ResponseIsFramed(e.fs, srcDir, p.request.path, keepAlive, code, next);
    Regroup(ResponseHead(e.fs, srcDir, p), ResponseBody(e.fs, srcDir, p), next);
  }

  /** The status is decided by the request line and one look at the file.  A rejected request is
      looked up as the resource directory itself, so it gets 400 exactly where the server would
      serve that directory's name as a file; where it is a directory the answer is 404. */
  lemma AnswerIsDecided(fs: HttpResponses.FileSystem, srcDir: string, text: string,
                        verify: HttpRequests.Verifier)
    requires text != ""
    ensures var p := HttpRequests.ParseText(HttpRequests.BLANK, text, verify);
            var head, full := ResponseHead(fs, srcDir, p), srcDir + p.request.path;
            && (HttpResponses.StartsWithStatus(head, 200) <==> p.ok && HttpResponses.Served(fs, full))
            && (HttpResponses.StartsWithStatus(head, 400) <==> !p.ok && HttpResponses.Served(fs, srcDir))
            && (HttpResponses.StartsWithStatus(head, 404) <==> full !in fs || fs[full].isDir)
            && (HttpResponses.StartsWithStatus(head, 403) <==> full in fs && !fs[full].isDir && !fs[full].otherRead)
            && (!p.ok ==> full == srcDir)
  {
    hide HttpResponses.Head, HttpResponses.StartsWithStatus, HttpRequests.ParseText, HttpRequests.KeepAlive;
    var p := HttpRequests.ParseText(HttpRequests.BLANK, text, verify);
    HttpRequests.RejectedIsUntouched(text, verify);
    var keepAlive, code := p.ok && HttpRequests.KeepAlive(p.request), if p.ok then 200 else 400;
    HttpResponses.StatusIsShown(fs, srcDir, p.request.path, keepAlive, code, 200);
    HttpResponses.StatusIsShown(fs, srcDir, p.request.path, keepAlive, code, 400);
    HttpResponses.StatusIsShown(fs, srcDir, p.request.path, keepAlive, code, 404);
    HttpResponses.StatusIsShown(fs, srcDir, p.request.path, keepAlive, code, 403);
    assert srcDir + "" == srcDir;
  }

  /** What a client learns from an answer, in the terms of the request and the file system: which file it
      is shown or why not, whether the connection stays, the type and the length. */
  lemma AnswerIsUnderstood(e: Exchange, srcDir: string, next: string)
    ensures var p := HttpRequests.ParseText(HttpRequests.BLANK, e.text, e.verify);
            var full := srcDir + p.request.path;
            var shown := if full !in e.fs || e.fs[full].isDir then "/404.html"
                         else if !e.fs[full].otherRead then "/403.html"
                         else if !p.ok then "/400.html" else p.request.path;
            var file := srcDir + shown;
            && HttpResponses.Headers(Answer(e, srcDir) + next) ==
               (if p.ok && HttpRequests.KeepAlive(p.request)
                then [("Connection", "keep-alive")] + [("keep-alive", "max=6, timeout=120")]
                else [("Connection", "close")])
               + [("Content-type", HttpResponses.FileType(shown)),
                  ("Content-length", Decimal(|AnswerBody(e, srcDir)|))]
            && (file in e.fs && e.fs[file].opens && !HttpResponses.ReadsMinusOne(e.fs[file].bytes) ==>
                  AnswerBody(e, srcDir) == e.fs[file].bytes)
            && (!HasFile(e, srcDir) <==>
                  file !in e.fs || !e.fs[file].opens || HttpResponses.ReadsMinusOne(e.fs[file].bytes))
            && (!HasFile(e, srcDir) ==> AnswerBody(e, srcDir) == HttpResponses.ErrorBody(
                  if full !in e.fs || e.fs[full].isDir then 404 else if !e.fs[full].otherRead then 403
                  else if !p.ok then 400 else 200, HttpResponses.NOT_FOUND))
  {
    hide HttpRequests.ParseText, HttpRequests.KeepAlive, HttpResponses.HeadOf, HttpResponses.Headers;
    hide HttpResponses.ErrorBody, HttpResponses.FileType, HttpResponses.ResolvePath, HttpResponses.ReadsMinusOne;
    var p := HttpRequests.ParseText(HttpRequests.BLANK, e.text, e.verify);
    var code, path := if p.ok then 200 else 400, p.request.path;
    HttpResponses.ShownFileIs(e.fs, srcDir, path, code);
    var c := HttpResponses.ResolveCode(e.fs, srcDir + path, code);
    assert c == if srcDir + path !in e.fs || e.fs[srcDir + path].isDir then 404
                else if !e.fs[srcDir + path].otherRead then 403 else code;
    hide HttpResponses.ResolveCode;
    var shown, body := HttpResponses.ResolvePath(path, c), AnswerBody(e, srcDir);
    HttpResponses.HeadIsUnderstood(c, p.ok && HttpRequests.KeepAlive(p.request), shown, body, body + next);
    Regroup(ResponseHead(e.fs, srcDir, p), body, next);
  }

  lemma ArrivedMore(net: Source, rooms: seq<nat>, room: nat, start: seq<Byte>, before: seq<Byte>)
    requires before == start + Arrived(net, rooms)
    ensures before + (if net(|rooms|, room).Moved? then net(|rooms|, room).bytes else [])
         == start + Arrived(net, rooms + [room])
    ensures net(|rooms|, room).Failed? ==> before == start + Arrived(net, rooms + [room])
  {
    assert (rooms + [room])[..|rooms|] == rooms;
    Regroup(start, Arrived(net, rooms), Delivered(net(|rooms|, room)));
  }

  lemma ArrivedNone(net: Source, s: seq<Byte>)
    ensures s == s + Arrived(net, [])
  {
  }

  lemma AdvanceSplits(wire: seq<Byte>, pending: seq<Byte>, len: nat)
    requires len <= |pending|
    ensures (wire + pending[..len]) + pending[len..] == wire + pending
  {
    assert pending == pending[..len] + pending[len..];
  }

  lemma IntoTail(head: seq<Byte>, file: seq<Byte>, base: nat, size: nat, len: nat)
    requires base + size <= |file| && |head| < len <= |head| + size
    ensures (head + file[base..base + size])[len..] == [] + file[base + (len - |head|)..base + size]
  {
  }

  lemma WithinHead(head: seq<Byte>, tail: seq<Byte>, len: nat)
    requires len <= |head|
    ensures (head + tail)[len..] == head[len..] + tail
  {
  }

  // ---------- The connection object ----------

  class HttpConn {
    const isET: bool
    const readBuff: Buffer
    const writeBuff: Buffer
    const request: HttpRequests.HttpRequest
    const response: HttpResponses.HttpResponse

    var fd: int
    var isClose: bool

    /** The two segments `writev` is given: a stretch of the write buffer's storage and a stretch
        of the mapped file. */
    var iovCnt: int
    var base0: nat
    var len0: nat
    var base1: nat
    var len1: nat

    /** The bytes accepted by the kernel since the last response was staged, and that response. */
    ghost var wire: seq<Byte>
    ghost var staged: seq<Byte>

    /** Every byte the kernel has accepted, and every byte it has delivered, since the connection was
        opened. */
    ghost var life: seq<Byte>
    ghost var received: seq<Byte>

    ghost predicate Valid()
      reads this, readBuff, readBuff.data, writeBuff, writeBuff.data
    {
      && readBuff != writeBuff && readBuff.data != writeBuff.data
      && readBuff.Valid() && writeBuff.Valid()
    }

    /** The first segment is the unread part of the write buffer, the second lies in the file. */
    ghost predicate Segmented()
      reads this, writeBuff, writeBuff.data, response
    {
      && writeBuff.Valid()
      && (iovCnt == 1 || iovCnt == 2)
      && len0 == writeBuff.ReadableBytes() && (len0 > 0 ==> base0 == writeBuff.readPos)
      && (iovCnt == 2 ==> response.mmFile.Some? && base1 + len1 <= |response.mmFile.value|)
    }

    /** Conservation: what was sent and what is still pending make up the staged response. */
    ghost predicate Staged()
      reads this, writeBuff, writeBuff.data, response
    {
      Segmented() && wire + Pending() == staged
    }

    /** What is still to be sent. */
    ghost function Pending(): (p: seq<Byte>)
      reads this, writeBuff, writeBuff.data, response
      requires Segmented()
      ensures |p| == Offered()
    {
      writeBuff.Content() + Tail()
    }

    ghost function Tail(): seq<Byte>
      reads this, response
      requires iovCnt == 2 ==> response.mmFile.Some? && base1 + len1 <= |response.mmFile.value|
    {
      if iovCnt == 2 then response.mmFile.value[base1..base1 + len1] else []
    }

    /** Nothing is left of any earlier response. */
    ghost predicate Idle()
      reads this, writeBuff, writeBuff.data
      requires writeBuff.Valid()
    {
      writeBuff.Content() == [] && len1 == 0
    }

    /** The second length counts towards the current response. */
    predicate Tidy()
      reads this
    {
      iovCnt == 2 || len1 == 0
    }

    /** Neither the buffered part nor a file, even one left over, is too long for the int that
        `ToWriteBytes()` returns. */
    predicate Fits()
      reads this
    {
      len0 <= 1024 && len1 <= LARGEST
    }

    /** The state between two answers, whatever second length is left over. */
    ghost predicate Ready()
      reads this, writeBuff, writeBuff.data
      requires writeBuff.Valid()
    {
      writeBuff.Content() == [] && len1 <= LARGEST
    }

    /** What the next `writev` is offered. */
    function Offered(): nat
      reads this
    {
      len0 + if iovCnt == 2 then len1 else 0
    }

    /** What `ToWriteBytes()` counts although it is not offered. */
    function Uncounted(): nat
      reads this
    {
      if iovCnt == 2 then 0 else len1
    }

    /** `ToWriteBytes()`: both lengths whatever the segment count, narrowed to int. */
    function ToWriteBytes(): int
      reads this
    {
      Int32(len0 + len1)
    }

    constructor (isET: bool)
      ensures fd == -1 && isClose
      ensures Valid() && this.isET == isET && Idle() && life == [] && received == []
      ensures fresh(readBuff) && fresh(readBuff.data) && fresh(writeBuff) && fresh(writeBuff.data)
      ensures fresh(request) && fresh(response)
    {
      this.isET := isET;
      fd, isClose := -1, true;
      readBuff := new Buffer(1024);
      writeBuff := new Buffer(1024);
      request := new HttpRequests.HttpRequest();
      response := new HttpResponses.HttpResponse();
      iovCnt, base0, len0, base1, len1 := 0, 0, 0, 0, 0;
      wire, staged, life, received := [], [], [], [];
    }

    /** The whole first segment and part of the second went out. */
    method AdvanceIntoFile(len: nat)
      requires Segmented() && len0 < len <= Offered()
      modifies this`len0, this`base1, this`len1, writeBuff`readPos, writeBuff`writePos, writeBuff.data
      ensures Segmented() && Pending() == old(Pending())[len..]
      ensures len0 == 0 && len1 == old(len0 + len1) - len <= old(len1)
    {
      IntoTail(writeBuff.Content(), response.mmFile.value, base1, len1, len);
      ghost var rest := response.mmFile.value[base1 + (len - len0)..base1 + len1];
      assert Pending()[len..] == [] + rest;
      base1 := base1 + (len - len0);
      len1 := len1 - (len - len0);
      if len0 != 0 {
        writeBuff.RetrieveAll();
        len0 := 0;
      }
      assert writeBuff.Content() == [] && Tail() == rest;
    }

    /** Advances the segments past `len` accepted bytes. */
    method Advance(len: nat)
      requires Segmented() && 0 < len <= Offered()
      modifies this`base0, this`len0, this`base1, this`len1,
               writeBuff`readPos, writeBuff`writePos, writeBuff.data
      ensures Segmented() && Pending() == old(Pending())[len..]
      ensures Offered() == old(Offered()) - len
      ensures len0 + len1 == old(len0 + len1) - len && len0 <= old(len0) && len1 <= old(len1)
    {
      if len > len0 {
        AdvanceIntoFile(len);
      } else {
        WithinHead(writeBuff.Content(), Tail(), len);
        base0 := base0 + len;
        len0 := len0 - len;
        writeBuff.Retrieve(len);
      }
    }

    /** Puts the next `len` pending bytes on the wire. */
    method Deliver(len: nat)
      requires Staged() && 0 < len <= Offered()
      modifies this`base0, this`len0, this`base1, this`len1, this`wire, this`life,
               writeBuff`readPos, writeBuff`writePos, writeBuff.data
      ensures Staged() && wire == old(wire) + old(Pending())[..len]
      ensures Grew(old(wire), wire, old(life), life)
      ensures Offered() == old(Offered()) - len
      ensures len0 + len1 == old(len0 + len1) - len && len0 <= old(len0) && len1 <= old(len1)
    {
      ghost var before := Pending();
      AdvanceSplits(wire, before, len);
      GrowsBy(wire, life, before[..len]);
      wire, life := wire + before[..len], life + before[..len];
      assert Segmented() && Pending() == before;
      hide Pending, Tail, Segmented, Valid, Offered;
      Advance(len);
    }

    /** Sends until the kernel refuses, or in level-triggered mode until little is left.  Returns
        the last result, the error number it set, and how many calls were made. */
    method Write(kernel: Kernel, errno: nat -> int) returns (len: int, saveErrno: int, calls: nat)
      requires Staged() && ObeysWritev(kernel)
      modifies this`base0, this`len0, this`base1, this`len1, this`wire, this`life,
               writeBuff`readPos, writeBuff`writePos, writeBuff.data
      ensures Staged() && Grew(old(wire), wire, old(life), life)
      ensures Offered() <= old(Offered()) && Uncounted() == old(Uncounted())
      ensures len0 <= old(len0) && len1 <= old(len1) && iovCnt == old(iovCnt)
      ensures Sending(len, calls, Offered()) == Outcome(isET, kernel, 0, old(Offered()), old(Uncounted()))
      ensures calls > 0 && (len <= 0 ==> saveErrno == errno(calls - 1) && len == kernel(calls - 1, Offered()))
      ensures len > 0 ==> !isET && ToWriteBytes() <= 10240
    {
      hide Staged, Segmented, Pending, Tail, Outcome, Grew, Int32;
      len, saveErrno, calls := -1, 0, 0;
      GrewNothing(wire, life);
      while true
        invariant Staged() && Grew(old(wire), wire, old(life), life)
        invariant Outcome(isET, kernel, calls, Offered(), Uncounted())
               == Outcome(isET, kernel, 0, old(Offered()), old(Uncounted()))
        invariant Offered() <= old(Offered()) && iovCnt == old(iovCnt)
        invariant len0 <= old(len0) && len1 <= old(len1)
        invariant old(len0 + len1) - (len0 + len1) == old(Offered()) - Offered()
        decreases Offered()
      {
        OutcomeStep(isET, kernel, calls, Offered(), Uncounted());
        ghost var w, l := wire, life;
        len := kernel(calls, Offered());
        calls := calls + 1;
        if len <= 0 {
          saveErrno := errno(calls - 1);
          break;
        }
        if len0 + len1 == 0 { break; }
        Deliver(len);
        GrewTwice(old(wire), w, wire, old(life), l, life);
        if !(isET || ToWriteBytes() > 10240) { break; }
      }
    }

    /** Writes and looks at what `ToWriteBytes()` shows then. */
    method Transmit(kernel: Kernel, errno: nat -> int)
      returns (ret: int, writeErrno: int, toWrite: int, ghost unsent: seq<Byte>, ghost calls: nat)
      requires Valid() && Staged() && ObeysWritev(kernel)
      modifies this`base0, this`len0, this`base1, this`len1, this`wire, this`life,
               writeBuff`readPos, writeBuff`writePos, writeBuff.data
      ensures Valid() && Staged() && Grew(old(wire), wire, old(life), life)
      ensures unsent == Pending() && wire + unsent == old(staged)
      ensures calls > 0 && (ret <= 0 ==> writeErrno == errno(calls - 1))
      ensures Sending(ret, calls, |unsent|) == Outcome(isET, kernel, 0, old(Offered()), old(Uncounted()))
      ensures isET && MakesProgress(kernel) ==> unsent == [] || ret < 0
      ensures old(Tidy()) && old(len0 + len1) < 0x8000_0000 ==> Settled(isET, kernel, old(Offered()), ret, |unsent|)
      ensures old(len0 + len1) < 0x8000_0000 ==>
                toWrite == |unsent| + old(Uncounted()) && (toWrite == 0 ==> Idle())
      ensures len0 <= old(len0) && len1 <= old(len1) && iovCnt == old(iovCnt) && Uncounted() == old(Uncounted())
    {
      hide Segmented, Pending, Tail, Idle, Tidy, Offered, Uncounted, ToWriteBytes, Outcome, Grew, Settled;
      LengthsAddUp();
      EdgeTriggeredEnd(isET, kernel, 0, Offered(), Uncounted());
      if len0 + len1 < 0x8000_0000 { WriteVerdict(isET, kernel, Offered(), Uncounted()); }
      ret, writeErrno, calls := Write(kernel, errno);
      toWrite, unsent := ToWriteBytes(), Pending();
      LengthsAddUp();
    }

    lemma LengthsAddUp()
      requires Segmented()
      ensures len0 + len1 == Offered() + Uncounted() && (Tidy() <==> Uncounted() == 0)
      ensures len0 + len1 < 0x8000_0000 ==> ToWriteBytes() == len0 + len1
      ensures writeBuff.Valid() && (Uncounted() == 0 && Offered() == 0 ==> Idle())
    {
    }

    /** A new connection on this slot.  Of the data path only the buffers are reset, the segments are
        not.  `userCount` is the count shared by all connections, before and after. */
    method Init(sockFd: int, userCount: int) returns (count: int)
      requires Valid() && sockFd > 0
      modifies this`fd, this`isClose, this`life, this`received, readBuff`readPos, readBuff`writePos, readBuff.data,
               writeBuff`readPos, writeBuff`writePos, writeBuff.data
      ensures count == userCount + 1 && fd == sockFd && !isClose
      ensures Valid() && readBuff.Content() == [] && writeBuff.Content() == [] && life == [] && received == []
      ensures (Ready() <==> len1 <= LARGEST) && (Idle() <==> len1 == 0)
    {
      count := userCount + 1;
      fd := sockFd;
      writeBuff.RetrieveAll();
      readBuff.RetrieveAll();
      isClose := false;
      life, received := [], [];
    }

    /** Unmaps the file; a connection that is still open is closed and counted off once.  The segments
        keep their lengths. */
    method Close(userCount: int) returns (count: int)
      modifies this`isClose, response`mmFile
      ensures isClose && response.mmFile == None
      ensures count == userCount - if old(isClose) then 0 else 1
    {
      response.UnmapFile();
      count := userCount;
      if !isClose {
        isClose := true;
        count := count - 1;
      }
    }

    /** Reads once, or in edge-triggered mode until the socket has nothing more.  `rounds` bounds
        how long the peer keeps the socket full. */
    method Read(net: Source, ghost rounds: nat) returns (len: int, saveErrno: int, ghost rooms: seq<nat>)
      requires Valid() && ObeysReadv(net)
      requires isET ==> EndsBy(net, rounds)
      modifies this`received, readBuff, readBuff.data
      ensures Valid() && (readBuff.data == old(readBuff.data) || fresh(readBuff.data))
      ensures received == old(received) + Arrived(net, rooms)
      ensures ReadOut(isET, net, rooms) && readBuff.Content() == old(readBuff.Content()) + Arrived(net, rooms)
      ensures var last := net(|rooms| - 1, rooms[|rooms| - 1]);
              && len == (if last.Moved? then |last.bytes| else -1)
              && (last.Failed? ==> saveErrno == last.errno) && (last.Moved? ==> saveErrno == 0)
    {
      hide Arrived, Delivered, ReadOut, Layout.Filled, Buffer.Shape;
      rooms := [];
      ArrivedNone(net, readBuff.Content());
      ArrivedNone(net, received);
      var call := 0;
      while true
        invariant Valid() && (readBuff.data == old(readBuff.data) || fresh(readBuff.data))
        invariant call == |rooms| && readBuff.Content() == old(readBuff.Content()) + Arrived(net, rooms)
        invariant received == old(received) + Arrived(net, rooms)
        invariant call > 0 ==> isET && call <= rounds
        invariant forall k | 0 <= k < |rooms| :: rooms[k] >= SPILL_SIZE && !Stops(net(k, rooms[k]))
        decreases rounds + 1 - call
      {
        var room := readBuff.WritableBytes() + SPILL_SIZE;
        ghost var before := readBuff.Content();
        var r := net(call, room);
        ArrivedMore(net, rooms, room, old(readBuff.Content()), before);
        ArrivedMore(net, rooms, room, old(received), received);
        received := received + if r.Moved? then r.bytes else [];
        len, saveErrno := readBuff.ReadFd(r);
        rooms := rooms + [room];
        call := call + 1;
        if len <= 0 || !isET { break; }
      }
      ReadEnds(isET, net, rooms);
    }

    /** A new response is staged for `e`: what the parser left of the text stays to be read, and only
        a file replaces the second length `before`. */
    ghost predicate StagedFor(e: Exchange, srcDir: string, before: nat)
      reads this, readBuff, readBuff.data, writeBuff, writeBuff.data, response, request
      requires readBuff.Valid()
    {
      && Staged() && wire == [] && readBuff.Content() == Leftover(e)
      && (iovCnt == 2 <==> HasFile(e, srcDir)) && (if iovCnt == 2 then len1 > 0 else len1 == before)
      && request.Snapshot() == HttpRequests.ParseText(HttpRequests.BLANK, e.text, e.verify).request
    }

    /** Parses what was read and stages the response behind anything still in the write buffer. */
    method Process(fs: HttpResponses.FileSystem, srcDir: string, verify: HttpRequests.Verifier) returns (r: bool)
      requires Valid() && HttpResponses.Mappable(fs) && srcDir != ""
      modifies this`iovCnt, this`base0, this`len0, this`base1, this`len1, this`wire, this`staged,
               readBuff`readPos, writeBuff, writeBuff.data, request, response
      ensures Valid() && (writeBuff.data == old(writeBuff.data) || fresh(writeBuff.data))
      ensures r <==> old(readBuff.Content()) != []
      ensures !r ==> request.Snapshot() == HttpRequests.BLANK
      ensures !r ==> readBuff.Content() == [] && writeBuff.Content() == old(writeBuff.Content())
                     && iovCnt == old(iovCnt) && len0 == old(len0) && len1 == old(len1)
                     && wire == old(wire) && staged == old(staged)
      ensures r ==> var e := Exchange(old(readBuff.Content()), fs, verify);
                StagedFor(e, srcDir, old(len1)) && staged == old(writeBuff.Content()) + Answer(e, srcDir)
      ensures r && HttpResponses.Manageable(fs) && old(Ready()) ==> Fits()
    {
      hide Answer, StagedFor, Ready, Fits, Leftover;
      hide HttpRequests.ParseText, HttpRequests.KeepAlive, HttpResponses.Manageable, HttpResponses.Mappable;
      ghost var e := Exchange(readBuff.Content(), fs, verify);
      LeftoverIs(e);
      request.Init();
      if readBuff.ReadableBytes() <= 0 {
        return false;
      }
      var ok := request.Parse(readBuff, verify);
      StageAnswer(ok, fs, srcDir, e);
      r := true;
    }

    lemma LeftoverIs(e: Exchange)
      ensures Leftover(e) == HttpRequests.ParseText(HttpRequests.BLANK, e.text, e.verify).rest
    {
    }

    /** Success with the parsed path, or a bad request that closes the connection. */
    method StageAnswer(ok: bool, fs: HttpResponses.FileSystem, srcDir: string, ghost e: Exchange)
      requires Valid() && HttpResponses.Mappable(fs) && srcDir != ""
      requires e.fs == fs && readBuff.Content() == Leftover(e)
      requires var p := HttpRequests.ParseText(HttpRequests.BLANK, e.text, e.verify);
               p.ok == ok && p.request == request.Snapshot()
      modifies this`iovCnt, this`base0, this`len0, this`base1, this`len1, this`wire, this`staged,
               writeBuff, writeBuff.data, response
      ensures Valid() && (writeBuff.data == old(writeBuff.data) || fresh(writeBuff.data))
      ensures StagedFor(e, srcDir, old(len1)) && staged == old(writeBuff.Content()) + Answer(e, srcDir)
      ensures HttpResponses.Manageable(fs) && old(Ready()) ==> Fits()
    {
      hide Staged, Ready, Fits, Answer, HasFile, Leftover, HttpRequests.ParseText, HttpRequests.KeepAlive;
      hide HttpResponses.Head, HttpResponses.Body, HttpResponses.SentFile;
      hide HttpResponses.Manageable, HttpResponses.Mappable;
      var keepAlive, code := false, 400;
      if ok {
        keepAlive, code := request.IsKeepAlive(), 200;
      }
      AnswerParts(e, srcDir, writeBuff.Content(), request.path, keepAlive, code);
      Stage(fs, srcDir, request.path, keepAlive, code);
    }

    /** Points the segments at the write buffer and the mapped file, if there is one. */
    method PointSegments()
      requires writeBuff.Valid() && (response.mmFile.Some? ==> response.fileSize == |response.mmFile.value| > 0)
      modifies this`iovCnt, this`base0, this`len0, this`base1, this`len1, this`wire, this`staged
      ensures Staged() && wire == [] && (if iovCnt == 2 then len1 > 0 else len1 == old(len1))
      ensures iovCnt == 2 <==> response.mmFile.Some?
      ensures len0 == |writeBuff.Content()| && (iovCnt == 2 ==> len1 == |response.mmFile.value|)
      ensures response.mmFile.None? ==> staged == writeBuff.Content()
      ensures response.mmFile.Some? ==> staged == writeBuff.Content() + response.mmFile.value
    {
      base0 := writeBuff.readPos;
      len0 := writeBuff.ReadableBytes();
      iovCnt := 1;
      if response.fileSize > 0 && response.mmFile.Some? {
        base1 := 0;
        len1 := response.fileSize;
        iovCnt := 2;
      }
      wire, staged := [], Pending();
    }

    /** Makes the response and points the segments at its two parts. */
    method Stage(fs: HttpResponses.FileSystem, srcDir: string, path: string, keepAlive: bool, code: int)
      requires writeBuff.Valid() && HttpResponses.Mappable(fs) && srcDir != ""
      modifies this`iovCnt, this`base0, this`len0, this`base1, this`len1, this`wire, this`staged,
               writeBuff, writeBuff.data, response
      ensures writeBuff.Valid() && (writeBuff.data == old(writeBuff.data) || fresh(writeBuff.data))
      ensures Staged() && wire == [] && (if iovCnt == 2 then len1 > 0 else len1 == old(len1))
      ensures iovCnt == 2 <==> HttpResponses.SentFile(fs, srcDir, path, code).Some?
      ensures HttpResponses.Manageable(fs) && old(Ready()) ==> Fits()
      ensures staged == old(writeBuff.Content()) + HttpResponses.Head(fs, srcDir, path, keepAlive, code)
                        + HttpResponses.Body(fs, srcDir, path, code)
    {
      hide HttpResponses.Head, HttpResponses.Body, HttpResponses.SentFile;
      if HttpResponses.Manageable(fs) { HttpResponses.ResponseFits(fs, srcDir, path, keepAlive, code); }
      response.Init(srcDir, path, keepAlive, code);
      response.MakeResponse(writeBuff, fs);
      PointSegments();
    }

    // ---------- The handlers of web_server.cpp ----------

    method OnProcess(fs: HttpResponses.FileSystem, srcDir: string, verify: HttpRequests.Verifier)
      returns (action: Action)
      requires Valid() && HttpResponses.Mappable(fs) && srcDir != ""
      modifies this`iovCnt, this`base0, this`len0, this`base1, this`len1, this`wire, this`staged,
               readBuff`readPos, writeBuff, writeBuff.data, request, response
      ensures Valid() && (writeBuff.data == old(writeBuff.data) || fresh(writeBuff.data))
      ensures action == if old(readBuff.Content()) != [] then ArmWrite else ArmRead
      ensures action == ArmWrite ==> StagedFor(Exchange(old(readBuff.Content()), fs, verify), srcDir, old(len1))
      ensures action == ArmWrite && old(writeBuff.Content()) == [] ==>
                staged == Answer(Exchange(old(readBuff.Content()), fs, verify), srcDir)
      ensures action == ArmWrite && HttpResponses.Manageable(fs) && old(Ready()) ==> Fits()
      ensures action == ArmRead ==> readBuff.Content() == [] && writeBuff.Content() == old(writeBuff.Content())
                                    && len1 == old(len1)
    {
      hide StagedFor, Answer, Leftover, HasFile, HttpResponses.Manageable;
      NothingBefore(Answer(Exchange(readBuff.Content(), fs, verify), srcDir));
      var r := Process(fs, srcDir, verify);
      action := if r then ArmWrite else ArmRead;
    }

    /** Closes on end of file or an error other than EAGAIN, even when bytes were read before. */
    method OnRead(net: Source, ghost rounds: nat,
                  fs: HttpResponses.FileSystem, srcDir: string, verify: HttpRequests.Verifier)
      returns (action: Action, ghost rooms: seq<nat>)
      requires Valid() && HttpResponses.Mappable(fs) && srcDir != "" && ObeysReadv(net)
      requires isET ==> EndsBy(net, rounds)
      modifies this`iovCnt, this`base0, this`len0, this`base1, this`len1, this`wire, this`staged, this`received,
               readBuff, readBuff.data, writeBuff, writeBuff.data, request, response
      ensures Valid()
      ensures readBuff.data == old(readBuff.data) || fresh(readBuff.data)
      ensures writeBuff.data == old(writeBuff.data) || fresh(writeBuff.data)
      ensures ReadOut(isET, net, rooms) && received == old(received) + Arrived(net, rooms)
      // It closes exactly on end of file or an error other than EAGAIN, whatever arrived before:
      ensures var last := net(|rooms| - 1, rooms[|rooms| - 1]);
              action == CloseIt <==> last == Moved([]) || (last.Failed? && last.errno != EAGAIN)
      ensures action == CloseIt ==> readBuff.Content() == old(readBuff.Content()) + Arrived(net, rooms)
      // Otherwise it answers everything that is there:
      ensures var e := Exchange(old(readBuff.Content()) + Arrived(net, rooms), fs, verify);
              && (action == ArmRead ==> e.text == [] && readBuff.Content() == [] && len1 == old(len1)
                                        && writeBuff.Content() == old(writeBuff.Content()))
              && (action == ArmWrite ==> StagedFor(e, srcDir, old(len1)))
              && (action == ArmWrite && old(writeBuff.Content()) == [] ==> staged == Answer(e, srcDir))
      ensures action == ArmWrite && HttpResponses.Manageable(fs) && old(Ready()) ==> Fits()
    {
      hide Answer, Arrived, Leftover, HasFile, HttpResponses.Manageable;
      var ret, readErrno;
      ret, readErrno, rooms := Read(net, rounds);
      if ret <= 0 && readErrno != EAGAIN {
        return CloseIt, rooms;
      }
      action := OnProcess(fs, srcDir, verify);
    }

    /** Writes, then re-arms or closes.  `sent` and `unsent` are the two parts of the response that
        was staged on entry, and `toWrite` what ToWriteBytes() showed after the write. */
    method OnWrite(kernel: Kernel, errno: nat -> int,
                   fs: HttpResponses.FileSystem, srcDir: string, verify: HttpRequests.Verifier)
      returns (action: Action, ret: int, writeErrno: int, toWrite: int,
               ghost sent: seq<Byte>, ghost unsent: seq<Byte>, ghost calls: nat)
      requires Valid() && Staged() && ObeysWritev(kernel) && HttpResponses.Mappable(fs) && srcDir != ""
      modifies this`iovCnt, this`base0, this`len0, this`base1, this`len1, this`wire, this`staged, this`life,
               readBuff`readPos, writeBuff, writeBuff.data, request, response
      ensures Valid() && (writeBuff.data == old(writeBuff.data) || fresh(writeBuff.data))
      ensures Grew(old(wire), sent, old(life), life) && sent + unsent == old(staged)
      ensures Sending(ret, calls, |unsent|) == Outcome(isET, kernel, 0, old(Offered()), old(Uncounted()))
      ensures calls > 0 && (ret <= 0 ==> writeErrno == errno(calls - 1))
      ensures isET && MakesProgress(kernel) ==> unsent == [] || ret < 0
      ensures old(Tidy()) && old(len0 + len1) < 0x8000_0000 ==> Settled(isET, kernel, old(Offered()), ret, |unsent|)
      // Anything but a zero total, with a length left over counted in, ends in a retry or a close:
      ensures old(len0 + len1) < 0x8000_0000 ==> toWrite == |unsent| + old(Uncounted())
      ensures toWrite != 0 ==>
                && action == (if ret < 0 && writeErrno == EAGAIN then ArmWrite else CloseIt)
                && Staged() && wire == sent && Pending() == unsent && staged == old(staged)
                && readBuff.Content() == old(readBuff.Content()) && request.Snapshot() == old(request.Snapshot())
                && iovCnt == old(iovCnt) && Uncounted() == old(Uncounted())
                && len0 <= old(len0) && len1 <= old(len1)
      // A zero total ends in a close, or in the answer to what is there to be read:
      ensures toWrite == 0 ==> (action == CloseIt <==> !old(request.IsKeepAlive()))
      ensures toWrite == 0 && old(len0 + len1) < 0x8000_0000 ==>
                var e := Exchange(old(readBuff.Content()), fs, verify);
                && (action == ArmWrite ==> StagedFor(e, srcDir, 0) && staged == Answer(e, srcDir))
                && (action == ArmWrite && HttpResponses.Manageable(fs) ==> Fits())
                && (action == ArmRead ==> e.text == [] && readBuff.Content() == [] && Idle())
                && (action == CloseIt ==> readBuff.Content() == e.text)
    {
      hide Segmented, Pending, Tail, Tidy, Offered, Uncounted, Answer, Leftover, HasFile;
      hide HttpRequests.KeepAlive, HttpResponses.Manageable, Grew, ObeysWritev, Settled, Outcome;
      ret, writeErrno, toWrite, unsent, calls := Transmit(kernel, errno);
      sent := wire;
      if toWrite == 0 {
        if request.IsKeepAlive() {
          action := OnProcess(fs, srcDir, verify);
          return;
        }
      } else if ret < 0 {
        if writeErrno == EAGAIN {
          return ArmWrite, ret, writeErrno, toWrite, sent, unsent, calls;
        }
      }
      action := CloseIt;
    }
  }
}
