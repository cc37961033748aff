/** The growable read/write buffer of code/buffer/buffer.cpp, refining a first-in first-out byte
    queue. */
module ByteBuffer {

  type Byte = char

  const SPILL_SIZE := 65535

  /** What `readv` or `write` reported. */
  datatype IoResult = Failed(errno: int) | Moved(bytes: seq<Byte>)

  // ---------- The queue a buffer refines ----------

  /** What the buffer's operations do to its unread bytes: Append and ReadFd put, Retrieve and
      WriteFd take some, RetrieveAll takes the rest. */
  datatype QueueOp = PutBytes(bytes: seq<Byte>) | TakeBytes(len: nat) | TakeAll

  predicate Allowed(q: seq<Byte>, op: QueueOp) { op.TakeBytes? ==> op.len <= |q| }

  function Taken(q: seq<Byte>, op: QueueOp): seq<Byte>
    requires Allowed(q, op)
  {
    match op case PutBytes(_) => [] case TakeBytes(len) => q[..len] case TakeAll => q
  }

  function Left(q: seq<Byte>, op: QueueOp): seq<Byte>
    requires Allowed(q, op)
  {
    match op case PutBytes(bytes) => q + bytes case TakeBytes(len) => q[len..] case TakeAll => []
  }

  function PutPart(op: QueueOp): seq<Byte> { if op.PutBytes? then op.bytes else [] }

  ghost predicate Runnable(q: seq<Byte>, ops: seq<QueueOp>)
    decreases |ops|
  {
    ops == [] || (Allowed(q, ops[0]) && Runnable(Left(q, ops[0]), ops[1..]))
  }

  ghost function Outflow(q: seq<Byte>, ops: seq<QueueOp>): seq<Byte>
    requires Runnable(q, ops)
    decreases |ops|
  {
    if ops == [] then [] else Taken(q, ops[0]) + Outflow(Left(q, ops[0]), ops[1..])
  }

  ghost function Inflow(ops: seq<QueueOp>): seq<Byte> {
    if ops == [] then []
    else PutPart(ops[0]) + Inflow(ops[1..])
  }

  ghost function Remaining(q: seq<Byte>, ops: seq<QueueOp>): seq<Byte>
    requires Runnable(q, ops)
    decreases |ops|
  {
    if ops == [] then q else Remaining(Left(q, ops[0]), ops[1..])
  }

  /** Over any run no byte is lost, duplicated or reordered. */
  lemma {:induction false} FirstInFirstOut(q: seq<Byte>, ops: seq<QueueOp>)
    requires Runnable(q, ops)
    ensures Outflow(q, ops) + Remaining(q, ops) == q + Inflow(ops)
    decreases |ops|
  {
    if ops != [] {
      var op := ops[0];
      FirstInFirstOut(Left(q, op), ops[1..]);
      OneStep(q, op);
      Shift(Taken(q, op), Outflow(Left(q, op), ops[1..]), Remaining(q, ops), Left(q, op), q, PutPart(op),
            Inflow(ops[1..]));
    }
  }

  lemma OneStep(q: seq<Byte>, op: QueueOp)
    requires Allowed(q, op)
    ensures Taken(q, op) + Left(q, op) == q + PutPart(op)
  {
  }

  lemma Shift(t: seq<Byte>, o: seq<Byte>, r: seq<Byte>, l: seq<Byte>, q: seq<Byte>, p: seq<Byte>,
              i: seq<Byte>)
    requires o + r == l + i && t + l == q + p
    ensures (t + o) + r == q + (p + i)
  {
    assert (t + o) + r == t + (o + r);
    assert (t + l) + i == t + (l + i);
    assert (q + p) + i == q + (p + i);
  }

  // ---------- The layout of the storage ----------

  /** The storage's size and the two positions in it. */
  datatype Layout = Layout(size: nat, readPos: nat, writePos: nat) {
    predicate Sound() { readPos <= writePos <= size }

    /** The room a read is offered. */
    function Room(): nat
      requires Sound()
    {
      size - writePos + SPILL_SIZE
    }

    /** Room for `len` bytes is made by growing when the free space does not suffice, and else by
        moving the unread bytes to the front. */
    function Widened(len: nat): (l: Layout)
      requires Sound()
      ensures l.Sound() && l.size - l.writePos >= len && l.writePos - l.readPos == writePos - readPos
    {
      if size - writePos >= len then this
      else if size - writePos + readPos < len then Layout(writePos + len + 1, readPos, writePos)
      else Layout(size, 0, writePos - readPos)
    }

    function Appended(len: nat): (l: Layout)
      requires Sound()
      ensures l.Sound() && l.writePos - l.readPos == writePos - readPos + len
    {
      var l := Widened(len);
      l.(writePos := l.writePos + len)
    }

    /** A read fills the free space first and appends what spilled over. */
    function Filled(len: nat): (l: Layout)
      requires Sound()
      ensures l.Sound() && l.writePos - l.readPos == writePos - readPos + len
    {
      if len <= size - writePos then this.(writePos := writePos + len)
      else this.(writePos := size).Appended(len - (size - writePos))
    }
  }

  class Buffer {
    var data: array<Byte>
    var readPos: nat
    var writePos: nat

    ghost predicate Valid()
      reads this, data
    {
      readPos <= writePos <= data.Length
    }

    /** The unread bytes. */
    function Content(): seq<Byte>
      reads this, data
      requires readPos <= writePos <= data.Length
    {
      data[readPos..writePos]
    }

    function Shape(): Layout
      reads this, data
    {
      Layout(data.Length, readPos, writePos)
    }

    function ReadableBytes(): nat
      reads this
      requires readPos <= writePos
    {
      writePos - readPos
    }

    function WritableBytes(): nat
      reads this, data
      requires writePos <= data.Length
    {
      data.Length - writePos
    }

    function PrependBytes(): nat
      reads this
    {
      readPos
    }

    constructor (initBuffSize: nat)
      ensures Valid() && fresh(data)
      ensures Content() == []
      ensures data.Length == initBuffSize
    {
      data := new Byte[initBuffSize](_ => '\0');
      readPos, writePos := 0, 0;
    }

    /** Drops the `len` oldest bytes. */
    method Retrieve(len: nat)
      requires Valid() && len <= ReadableBytes()
      modifies this`readPos
      ensures Valid()
      ensures Content() == old(Content())[len..]
      ensures Shape() == old(Shape()).(readPos := old(readPos) + len)
    {
      readPos := readPos + len;
    }

    /** Zeroes the storage and forgets every unread byte. */
    method RetrieveAll()
      requires Valid()
      modifies this`readPos, this`writePos, data
      ensures Valid()
      ensures Content() == [] && Shape() == Layout(data.Length, 0, 0)
      ensures forall k | 0 <= k < data.Length :: data[k] == '\0'
    {
      for k := 0 to data.Length
        invariant forall i | 0 <= i < k :: data[i] == '\0'
        modifies data
      {
        data[k] := '\0';
      }
      readPos := 0;
      writePos := 0;
    }

    method RetrieveAllToStr() returns (str: seq<Byte>)
      requires Valid()
      modifies this`readPos, this`writePos, data
      ensures Valid()
      ensures str == old(Content()) && Content() == [] && Shape() == Layout(data.Length, 0, 0)
    {
      str := data[readPos..writePos];
      RetrieveAll();
    }

    /** `std::copy` of the unread bytes to the front, one byte at a time and in place. */
    method MoveToFront()
      requires 0 < readPos <= writePos <= data.Length
      modifies data
      ensures data[..writePos - readPos] == old(data[readPos..writePos])
    {
      var k := 0;
      while k < writePos - readPos
        invariant 0 <= k <= writePos - readPos
        invariant forall i | 0 <= i < k :: data[i] == old(data[readPos + i])
        invariant forall i | k <= i < data.Length :: data[i] == old(data[i])
      {
        data[k] := data[readPos + k];
        k := k + 1;
      }
    }

    /** Makes room for `len` bytes by growing, or by moving the unread bytes to the front; the
        move happens only when the front has free space, and exactly when it suffices. */
    method AdjustSpace(len: nat)
      requires Valid() && WritableBytes() < len
      modifies this`data, this`readPos, this`writePos, data
      ensures Valid() && (data == old(data) || fresh(data))
      ensures Content() == old(Content()) && Shape() == old(Shape()).Widened(len)
      ensures readPos < old(readPos) <==> old(WritableBytes() + PrependBytes()) >= len
      ensures fresh(data) <==> old(WritableBytes() + PrependBytes()) < len
    {
      if WritableBytes() + PrependBytes() < len {
        var grown := new Byte[writePos + len + 1](_ => '\0');
        for k := 0 to data.Length
          invariant forall i | 0 <= i < k :: grown[i] == data[i]
          modifies grown
        {
          grown[k] := data[k];
        }
        assert grown[readPos..writePos] == data[readPos..writePos];
        data := grown;
      } else {
        var readable := ReadableBytes();
        assert readPos > 0;
        MoveToFront();
        readPos := 0;
        writePos := readPos + readable;
        assert readable == ReadableBytes();
      }
    }

    method EnsureWriteable(len: nat)
      requires Valid()
      modifies this`data, this`readPos, this`writePos, data
      ensures Valid() && (data == old(data) || fresh(data))
      ensures Content() == old(Content()) && Shape() == old(Shape()).Widened(len)
    {
      if WritableBytes() < len {
        AdjustSpace(len);
      }
    }

    /** Fills the first free slots with `bytes` and moves the write position past them. */
    method Put(bytes: seq<Byte>)
      requires Valid() && |bytes| <= WritableBytes()
      modifies this`writePos, data
      ensures Valid()
      ensures Content() == old(Content()) + bytes
      ensures Shape() == old(Shape()).(writePos := old(writePos) + |bytes|)
    {
      ghost var before := data[..writePos];
      for k := 0 to |bytes|
        invariant data[..writePos] == before
        invariant forall i | 0 <= i < k :: data[writePos + i] == bytes[i]
        modifies data
      {
        data[writePos + k] := bytes[k];
      }
      assert data[readPos..writePos] == before[readPos..];
      writePos := writePos + |bytes|;
      assert data[readPos..writePos] == before[readPos..] + bytes;
    }

    /** Puts `str` behind the unread bytes. */
    method Append(str: seq<Byte>)
      requires Valid()
      modifies this, data
      ensures Valid() && (data == old(data) || fresh(data))
      ensures Content() == old(Content()) + str && Shape() == old(Shape()).Appended(|str|)
    {
      EnsureWriteable(|str|);
      Put(str);
    }

    /** Reads once from a descriptor into the free space and, past that, into a 65535-byte spill
        area appended afterwards.  `net` is what the kernel delivers. */
    method ReadFd(net: IoResult) returns (len: int, saveErrno: int)
      requires Valid()
      requires net.Moved? ==> |net.bytes| <= WritableBytes() + 65535
      modifies this, data
      ensures Valid() && (data == old(data) || fresh(data))
      ensures net.Failed? ==> len == -1 && saveErrno == net.errno && Content() == old(Content())
      ensures net.Moved? ==> len == |net.bytes| && saveErrno == 0 && Content() == old(Content()) + net.bytes
      ensures Shape() == if net.Moved? then old(Shape()).Filled(|net.bytes|) else old(Shape())
    {
      var writable := WritableBytes();
      saveErrno := 0;
      match net {
        case Failed(errno) =>
          len := -1;
          saveErrno := errno;
        case Moved(bytes) =>
          len := |bytes|;
          if len <= writable {
            Put(bytes);
          } else {
            var spill := bytes[writable..];
            Put(bytes[..writable]);
            assert writePos == data.Length;
            Append(spill);
            assert bytes == bytes[..writable] + spill;
          }
      }
    }

    /** Writes unread bytes to a descriptor; the kernel takes some prefix of them. */
    method WriteFd(net: IoResult) returns (len: int, saveErrno: int)
      requires Valid()
      requires net.Moved? ==> net.bytes <= Content()
      modifies this`readPos
      ensures Valid()
      ensures net.Failed? ==> len == -1 && saveErrno == net.errno && Content() == old(Content())
      ensures net.Moved? ==> len == |net.bytes| && net.bytes + Content() == old(Content())
      ensures Shape() == old(Shape()).(readPos := old(readPos) + if net.Moved? then |net.bytes| else 0)
    {
      saveErrno := 0;
      match net {
        case Failed(errno) =>
          len := -1;
          saveErrno := errno;
        case Moved(bytes) =>
          len := |bytes|;
          Retrieve(len);
      }
    }
  }

  // ---------- Any run of the real buffer ----------

  /** One call on a buffer.  A caller chooses what to retrieve from the number of unread bytes; the
      kernel answers a read from the room it is given and a write from the bytes it is offered. */
  datatype Call =
    | CallAppend(str: seq<Byte>)
    | CallRetrieve(want: nat -> nat)
    | CallRetrieveAll
    | CallRetrieveAllToStr
    | CallReadFd(net: nat -> IoResult)
    | CallWriteFd(taken: nat -> int)

  ghost predicate Fair(call: Call) {
    match call
    case CallRetrieve(want) => forall n: nat :: want(n) <= n
    case CallReadFd(net) => forall room: nat :: net(room).Moved? ==> |net(room).bytes| <= room
    case CallWriteFd(taken) => forall n: nat :: -1 <= taken(n) <= n
    case _ => true
  }

  /** The queue operation a call comes to when a read is offered `room` bytes. */
  ghost predicate Performs(call: Call, q: seq<Byte>, room: nat, op: QueueOp) {
    match call
    case CallAppend(str) => op == PutBytes(str)
    case CallRetrieve(want) => op == TakeBytes(want(|q|))
    case CallRetrieveAll => op == TakeAll
    case CallRetrieveAllToStr => op == TakeAll
    case CallReadFd(net) => op == PutBytes(if net(room).Moved? then net(room).bytes else [])
    case CallWriteFd(taken) => op == TakeBytes(if taken(|q|) > 0 then taken(|q|) else 0)
  }

  /** The layout a call leaves. */
  function Reshaped(call: Call, l: Layout, op: QueueOp): Layout
    requires l.Sound()
  {
    match op
    case PutBytes(bytes) => if call.CallReadFd? then l.Filled(|bytes|) else l.Appended(|bytes|)
    case TakeBytes(len) => l.(readPos := l.readPos + len)
    case TakeAll => Layout(l.size, 0, 0)
  }

  /** The state of a run: content and layout. */
  datatype Trace = Trace(content: seq<Byte>, layout: Layout) {
    predicate Sound() { layout.Sound() && layout.writePos - layout.readPos == |content| }
  }

  ghost predicate Steps(call: Call, t: Trace, op: QueueOp) {
    t.Sound() && Allowed(t.content, op) && Performs(call, t.content, t.layout.Room(), op)
  }

  function Stepped(call: Call, t: Trace, op: QueueOp): (t1: Trace)
    requires t.Sound() && Allowed(t.content, op)
    ensures t1.Sound()
  {
    Trace(Left(t.content, op), Reshaped(call, t.layout, op))
  }

  /** `ops` are the operations of `calls`, one by one, each read offered exactly the room that the
      calls before it left. */
  ghost predicate PerformsAll(calls: seq<Call>, t: Trace, ops: seq<QueueOp>)
    decreases |calls|
  {
    && |ops| == |calls|
    && (calls != [] ==> Steps(calls[0], t, ops[0]) && PerformsAll(calls[1..], Stepped(calls[0], t, ops[0]), ops[1..]))
  }

  ghost function TraceAfter(calls: seq<Call>, t: Trace, ops: seq<QueueOp>): Trace
    requires PerformsAll(calls, t, ops)
    decreases |calls|
  {
    if calls == [] then t else TraceAfter(calls[1..], Stepped(calls[0], t, ops[0]), ops[1..])
  }

  lemma {:induction false} OneMoreOp(q: seq<Byte>, ops: seq<QueueOp>, op: QueueOp)
    requires Runnable(q, ops) && Allowed(Remaining(q, ops), op)
    ensures Runnable(q, ops + [op])
    ensures Outflow(q, ops + [op]) == Outflow(q, ops) + Taken(Remaining(q, ops), op)
    ensures Remaining(q, ops + [op]) == Left(Remaining(q, ops), op)
    decreases |ops|
  {
    hide Taken, Left, Allowed;
    var all := ops + [op];
    if ops == [] {
      assert all == [op] && all[1..] == [];
    } else {
      assert all[0] == ops[0] && all[1..] == ops[1..] + [op];
      OneMoreOp(Left(q, ops[0]), ops[1..], op);
    }
  }

  function TraceOf(b: Buffer): Trace
    reads b, b.data
    requires b.readPos <= b.writePos <= b.data.Length
  {
    Trace(b.Content(), b.Shape())
  }

  /** One call: what it hands out, and the content and layout it leaves. */
  method PerformCall(b: Buffer, call: Call) returns (out: seq<Byte>, ghost op: QueueOp)
    requires b.Valid() && Fair(call)
    modifies b, b.data
    ensures b.Valid() && (b.data == old(b.data) || fresh(b.data))
    ensures Steps(call, old(TraceOf(b)), op)
    ensures out == Taken(old(b.Content()), op) && TraceOf(b) == Stepped(call, old(TraceOf(b)), op)
  {
    ghost var before := b.Content();
    out := [];
    match call {
      case CallAppend(str) =>
        b.Append(str);
        op := PutBytes(str);
      case CallRetrieve(want) =>
        var len := want(b.ReadableBytes());
        out := b.Content()[..len];
        b.Retrieve(len);
        op := TakeBytes(len);
      case CallRetrieveAll =>
        out := b.Content();
        b.RetrieveAll();
        op := TakeAll;
      case CallRetrieveAllToStr =>
        out := b.RetrieveAllToStr();
        op := TakeAll;
      case CallReadFd(net) =>
        var room := b.Shape().Room();
        var len, saveErrno := b.ReadFd(net(room));
        op := PutBytes(if net(room).Moved? then net(room).bytes else []);
      case CallWriteFd(taken) =>
        var len := taken(b.ReadableBytes());
        if len >= 0 { out := b.Content()[..len]; }
        var wrote, saveErrno := b.WriteFd(if len < 0 then Failed(-len) else Moved(out));
        op := TakeBytes(|out|);
    }
  }

  /** Whatever is called on a buffer, and however the kernel answers: what came out and what is
      left are what was there and what went in, in order. */
  method Replay(b: Buffer, calls: seq<Call>) returns (out: seq<Byte>, ghost ops: seq<QueueOp>)
    requires b.Valid() && forall i | 0 <= i < |calls| :: Fair(calls[i])
    modifies b, b.data
    ensures b.Valid() && PerformsAll(calls, old(TraceOf(b)), ops)
    ensures TraceOf(b) == TraceAfter(calls, old(TraceOf(b)), ops)
    ensures Runnable(old(b.Content()), ops) && out == Outflow(old(b.Content()), ops)
    ensures out + b.Content() == old(b.Content()) + Inflow(ops)
  {
    hide Steps, Stepped, Fair, Taken, Left, Allowed, Outflow, Inflow, Remaining, Runnable, PerformsAll, TraceAfter;
    out, ops := [], [];
    NothingCalled(TraceOf(b));
    for k := 0 to |calls|
      invariant b.Valid() && (b.data == old(b.data) || fresh(b.data))
      invariant PerformsAll(calls[..k], old(TraceOf(b)), ops)
      invariant TraceOf(b) == TraceAfter(calls[..k], old(TraceOf(b)), ops)
      invariant Runnable(old(b.Content()), ops)
      invariant out == Outflow(old(b.Content()), ops) && b.Content() == Remaining(old(b.Content()), ops)
    {
      ghost var op, before := *, TraceOf(b);
      var taken;
      taken, op := PerformCall(b, calls[k]);
      StepIsAllowed(calls[k], before, op);
      OneMoreOp(old(b.Content()), ops, op);
      OneMoreCall(calls[..k], old(TraceOf(b)), ops, calls[k], op);
      assert calls[..k + 1] == calls[..k] + [calls[k]];
      out, ops := out + taken, ops + [op];
    }
    assert calls[..|calls|] == calls;
    FirstInFirstOut(old(b.Content()), ops);
  }

  lemma NothingCalled(t: Trace)
    ensures PerformsAll([], t, []) && TraceAfter([], t, []) == t
    ensures Runnable(t.content, []) && Outflow(t.content, []) == [] && Remaining(t.content, []) == t.content
  {
  }

  lemma StepIsAllowed(call: Call, t: Trace, op: QueueOp)
    requires Steps(call, t, op)
    ensures t.Sound() && Allowed(t.content, op) && Stepped(call, t, op).content == Left(t.content, op)
  {
  }

  lemma {:induction false} OneMoreCall(calls: seq<Call>, t: Trace, ops: seq<QueueOp>, call: Call, op: QueueOp)
    requires PerformsAll(calls, t, ops) && Steps(call, TraceAfter(calls, t, ops), op)
    ensures TraceAfter(calls, t, ops).Sound() && Allowed(TraceAfter(calls, t, ops).content, op)
    ensures PerformsAll(calls + [call], t, ops + [op])
    ensures TraceAfter(calls + [call], t, ops + [op]) == Stepped(call, TraceAfter(calls, t, ops), op)
    decreases |calls|
  {
    hide Performs, Stepped;
    var all, allOps := calls + [call], ops + [op];
    if calls == [] {
      assert all == [call] && allOps == [op] && all[1..] == [] && allOps[1..] == [];
    } else {
      assert all[1..] == calls[1..] + [call] && allOps[1..] == ops[1..] + [op];
      OneMoreCall(calls[1..], Stepped(calls[0], t, ops[0]), ops[1..], call, op);
    }
  }
}
