/** The timer of code/timer/timer.cpp: a binary min-heap of deadlines with an index from
    connection id to heap position, kept in step by in-place swaps. */
module TimerHeap {
  import opened Machine

  /** The only callback the server registers: close the connection on `fd`. */
  datatype Callback = CloseConn(fd: int)

  /** Deadlines are clock ticks of one nanosecond. */
  datatype TimerNode = TimerNode(id: int, expires: int, cb: Callback) {
    predicate Less(t: TimerNode) { expires < t.expires }
  }

  /** What the timer promises to remember about one id. */
  datatype Entry = Entry(expires: int, cb: Callback)

  const NS_PER_MS := 1_000_000

  /** `Clock::now() + MS(timeout)`. */
  function Deadline(now: int, timeout: int): int { now + timeout * NS_PER_MS }

  /** Whole milliseconds left, truncated toward zero. */
  function RemainingMs(expires: int, now: int): int { TruncDiv(expires - now, NS_PER_MS) }

  predicate Due(expires: int, now: int) { RemainingMs(expires, now) <= 0 }

  /** `(i - 1) / 2` on size_t, where 0 - 1 wraps around. */
  function ParentIndex(i: nat): nat { if i == 0 then SIZE_MAX / 2 else (i - 1) / 2 }

  // ---------- Heap order ----------

  ghost predicate OkAt(h: seq<TimerNode>, k: nat)
    requires k < |h|
  {
    k > 0 ==> h[(k - 1) / 2].expires <= h[k].expires
  }

  /** The first `n` slots are a min-heap, except perhaps on the edge above slot `hole`. */
  ghost predicate OrderedBut(h: seq<TimerNode>, n: nat, hole: nat)
    requires n <= |h|
  {
    forall k | 0 <= k < n && k != hole :: OkAt(h, k)
  }

  ghost predicate Ordered(h: seq<TimerNode>, n: nat)
    requires n <= |h|
  {
    forall k | 0 <= k < n :: OkAt(h, k)
  }

  /** Slot `i` may be wrong in both directions, but its parent is no later than its children. */
  ghost predicate LooseAt(h: seq<TimerNode>, n: nat, i: nat)
    requires i < n <= |h|
  {
    && (forall k | 0 <= k < n && k != i && (k - 1) / 2 != i :: OkAt(h, k))
    && (i > 0 ==> forall k | 0 < k < n && (k - 1) / 2 == i :: h[(i - 1) / 2].expires <= h[k].expires)
  }

  lemma {:induction false} RootIsLeast(h: seq<TimerNode>, n: nat, k: nat)
    requires k < n <= |h| && Ordered(h, n)
    ensures h[0].expires <= h[k].expires
  {
    if k > 0 {
      assert OkAt(h, k);
      RootIsLeast(h, n, (k - 1) / 2);
    }
  }

  /** Any change of one node's deadline leaves a heap that is wrong at that slot only. */
  lemma UpdateIsLoose(h: seq<TimerNode>, i: nat, x: TimerNode)
    requires i < |h| && Ordered(h, |h|)
    ensures LooseAt(h[i := x], |h|, i)
  {
    var g := h[i := x];
    forall k | 0 <= k < |h| && k != i && (k - 1) / 2 != i
      ensures OkAt(g, k)
    {
      assert OkAt(h, k);
    }
    forall k | i > 0 && 0 < k < |h| && (k - 1) / 2 == i
      ensures g[(i - 1) / 2].expires <= g[k].expires
    {
      assert OkAt(h, k) && OkAt(h, i);
    }
  }

  // ---------- The index ----------

  /** `refs` is the exact inverse of the heap's id column. */
  ghost predicate Indexed(h: seq<TimerNode>, refs: map<int, nat>) {
    && (forall k | 0 <= k < |h| :: h[k].id in refs && refs[h[k].id] == k)
    && (forall id | id in refs :: refs[id] < |h| && h[refs[id]].id == id)
  }

  ghost function View(h: seq<TimerNode>, refs: map<int, nat>): map<int, Entry>
    requires Indexed(h, refs)
  {
    map id | id in refs :: Entry(h[refs[id]].expires, h[refs[id]].cb)
  }

  /** The same nodes in another order: nothing lost, nothing duplicated, nothing altered. */
  ghost predicate Rearranged(h: seq<TimerNode>, refs: map<int, nat>, g: seq<TimerNode>, r: map<int, nat>)
    requires Indexed(h, refs) && Indexed(g, r)
  {
    View(g, r) == View(h, refs) && multiset(g) == multiset(h) && |g| == |h|
  }

  ghost function Swapped(h: seq<TimerNode>, i: nat, j: nat): seq<TimerNode>
    requires i < |h| && j < |h|
  {
    h[i := h[j]][j := h[i]]
  }

  lemma SwapKeepsContents(h: seq<TimerNode>, refs: map<int, nat>, i: nat, j: nat)
    requires i < |h| && j < |h| && Indexed(h, refs)
    ensures var g := Swapped(h, i, j); var r := refs[g[i].id := i][g[j].id := j];
            Indexed(g, r) && Rearranged(h, refs, g, r)
  {
    var g := Swapped(h, i, j);
    var r := refs[g[i].id := i][g[j].id := j];
    assert r.Keys == refs.Keys;
    forall id | id in refs
      ensures r[id] < |g| && g[r[id]] == h[refs[id]]
    {
    }
  }

  // ---------- Ticking ----------

  ghost function FiredIds(fired: seq<TimerNode>): set<int> {
    set k | 0 <= k < |fired| :: fired[k].id
  }

  /** `fired` lists the nodes a tick released, in order; reading number k of the clock was taken
      before releasing fired[k]. */
  ghost predicate Released(before: map<int, Entry>, after: map<int, Entry>,
                           fired: seq<TimerNode>, clock: nat -> int)
  {
    && (forall k | 0 <= k < |fired| ::
          fired[k].id in before && before[fired[k].id] == Entry(fired[k].expires, fired[k].cb))
    && (forall j, k | 0 <= j < k < |fired| ::
          fired[j].id != fired[k].id && fired[j].expires <= fired[k].expires)
    && (forall k | 0 <= k < |fired| :: Due(fired[k].expires, clock(k)))
    && after == before - FiredIds(fired)
    && (forall id, k | id in after && 0 <= k < |fired| :: fired[k].expires <= after[id].expires)
  }

  /** ... and it stopped because nothing is left or nothing left is due at the next reading. */
  ghost predicate TickOutcome(before: map<int, Entry>, after: map<int, Entry>,
                              fired: seq<TimerNode>, clock: nat -> int)
  {
    && Released(before, after, fired, clock)
    && (forall id | id in after :: !Due(after[id].expires, clock(|fired|)))
  }

  ghost predicate NonDecreasing(clock: nat -> int) {
    forall i: nat, j: nat | i <= j :: clock(i) <= clock(j)
  }

  /** The index of the last clock reading a tick took. */
  ghost function LastReading(after: map<int, Entry>, fired: seq<TimerNode>): nat {
    if after == map[] && fired != [] then |fired| - 1 else |fired|
  }

  /** With a clock that never goes back, a tick releases exactly the ids that have less than one
      millisecond left at its last reading. */
  lemma TickReleasesExactlyTheDue(before: map<int, Entry>, after: map<int, Entry>,
                                  fired: seq<TimerNode>, clock: nat -> int)
    requires TickOutcome(before, after, fired, clock) && NonDecreasing(clock)
    ensures forall id | id in before ::
              id !in after <==> before[id].expires - clock(LastReading(after, fired)) < 1_000_000
  {
  }

  ghost predicate IsEarliest(m: map<int, Entry>, id: int) {
    id in m && forall other | other in m :: m[id].expires <= m[other].expires
  }

  /** What a sleep time asked for at `own` says, in nanoseconds, for a deadline that the tick found not
      due at `last`.  Ahead of the deadline it is the number of whole milliseconds left.  The guard
      against a negative value acts on an unsigned variable and never fires: behind the deadline it is
      the number of whole milliseconds passed, negated, so that it is negative exactly from a full
      millisecond on, and -1, which blocks `epoll_wait` for good, exactly in the first of these. */
  ghost predicate SleepsFor(timeMs: int, expires: int, last: int, own: int) {
    var left := expires - own;
    && (0 <= left < 0x8000_0000 * 1_000_000 ==> timeMs * 1_000_000 <= left < (timeMs + 1) * 1_000_000)
    && (-0x8000_0000 * 1_000_000 <= left < 0 ==>
          && (timeMs - 1) * 1_000_000 < left <= timeMs * 1_000_000
          && (timeMs < 0 <==> own - expires >= 1_000_000)
          && (timeMs == -1 <==> 1_000_000 <= own - expires < 2_000_000)
          && (timeMs < 0 ==> own - last >= 2_000_000))
  }

  lemma SleepSign(expires: int, last: int, own: int)
    requires !Due(expires, last)
    ensures SleepsFor(Int32(RemainingMs(expires, own)), expires, last, own)
  {
  }

  /** What asking for the next tick leaves and answers: a tick, and then -1 when no deadline is left, or
      else the whole milliseconds to a least deadline at one further reading. */
  ghost predicate NextTickOutcome(before: map<int, Entry>, after: map<int, Entry>, timeMs: int,
                                  fired: seq<TimerNode>, clock: nat -> int)
  {
    && TickOutcome(before, after, fired, clock)
    && (after == map[] ==> timeMs == -1)
    && (after != map[] ==> exists id ::
          && IsEarliest(after, id)
          && timeMs == Int32(RemainingMs(after[id].expires, clock(|fired| + 1)))
          && SleepsFor(timeMs, after[id].expires, clock(|fired|), clock(|fired| + 1)))
  }

  // ---------- Steps of the timer's methods ----------

  /** Some child of `i` is due no later than `i`. */
  ghost predicate Sinks(h: seq<TimerNode>, n: nat, i: nat)
    requires i < n <= |h|
  {
    exists c | 0 < c < n && (c - 1) / 2 == i :: h[c].expires <= h[i].expires
  }

  /** A node that started at `index` has sunk to `i`; every edge is right except those below `i`
      and, if it has not moved, the one above it. */
  ghost predicate Sinking(h: seq<TimerNode>, n: nat, index: nat, i: nat)
    requires i < n <= |h| && index < n
  {
    && (forall k | 0 <= k < n && k != index && (k - 1) / 2 != i :: OkAt(h, k))
    && (i != index ==> OkAt(h, index) && OkAt(h, i))
    && LooseAt(h, n, i)
  }

  ghost predicate LeastChild(h: seq<TimerNode>, n: nat, i: nat, j: nat)
    requires j < n <= |h|
  {
    && 0 < j && (j - 1) / 2 == i
    && (2 * i + 1 < n ==> h[j].expires <= h[2 * i + 1].expires)
    && (2 * i + 2 < n ==> h[j].expires <= h[2 * i + 2].expires)
  }

  lemma SinkStep(h: seq<TimerNode>, n: nat, index: nat, i: nat, j: nat)
    requires index <= i < j < n <= |h|
    requires Sinking(h, n, index, i) && LeastChild(h, n, i, j) && !h[i].Less(h[j])
    ensures Sinking(Swapped(h, i, j), n, index, j)
    ensures Sinks(h, n, i) && Swapped(h, i, j)[n..] == h[n..]
  {
    var g := Swapped(h, i, j);
    forall k | 0 <= k < n && (k - 1) / 2 != j
      ensures OkAt(g, k)
    {
      if k != index && (k - 1) / 2 != i {
        assert OkAt(h, k);
      } else if k > 0 && (k - 1) / 2 == i {
        assert k == 2 * i + 1 || k == 2 * i + 2;
      }
    }
    forall k | 0 < k < n && (k - 1) / 2 == j
      ensures g[(j - 1) / 2].expires <= g[k].expires
    {
      assert OkAt(h, k);
    }
  }

  lemma SinkEnd(h: seq<TimerNode>, n: nat, index: nat, i: nat)
    requires index <= i < n <= |h| && Sinking(h, n, index, i)
    requires 2 * i + 1 < n ==> h[i].Less(h[2 * i + 1])
    requires 2 * i + 2 < n ==> h[i].Less(h[2 * i + 2])
    ensures OrderedBut(h, n, index) && (i > index ==> Ordered(h, n)) && !Sinks(h, n, i)
  {
    forall k | 0 < k < n && (k - 1) / 2 == i
      ensures h[k].expires > h[i].expires
    {
      assert k == 2 * i + 1 || k == 2 * i + 2;
    }
    forall k | 0 <= k < n && k != index
      ensures OkAt(h, k)
    {
      assert (k - 1) / 2 == i ==> k == 2 * i + 1 || k == 2 * i + 2;
    }
  }

  lemma SwapUpKeepsShape(h: seq<TimerNode>, n: nat, i: nat)
    requires 0 < i < n <= |h| && OrderedBut(h, n, i) && LooseAt(h, n, i)
    requires h[i].Less(h[(i - 1) / 2])
    ensures var j := (i - 1) / 2; var g := Swapped(h, i, j);
            OrderedBut(g, n, j) && LooseAt(g, n, j)
  {
    var j := (i - 1) / 2;
    var g := Swapped(h, i, j);
    forall k | 0 <= k < n && k != j
      ensures OkAt(g, k)
    {
      assert k != i ==> OkAt(h, k);
    }
    forall k | j > 0 && 0 < k < n && (k - 1) / 2 == j
      ensures g[(j - 1) / 2].expires <= g[k].expires
    {
      assert OkAt(h, j) && (k != i ==> OkAt(h, k));
    }
  }

  lemma DelIsLoose(h: seq<TimerNode>, i: nat)
    requires i < |h| - 1 && Ordered(h, |h|)
    ensures LooseAt(Swapped(h, i, |h| - 1), |h| - 1, i)
  {
    UpdateIsLoose(h, i, h[|h| - 1]);
    var g, u := Swapped(h, i, |h| - 1), h[i := h[|h| - 1]];
    forall k | 0 <= k < |h| - 1 && k != i && (k - 1) / 2 != i
      ensures OkAt(g, k)
    {
      assert OkAt(u, k);
    }
  }

  lemma DropLast(h: seq<TimerNode>, refs: map<int, nat>)
    requires h != [] && Indexed(h, refs) && Ordered(h, |h| - 1)
    ensures var last := |h| - 1;
            && Ordered(h[..last], last)
            && Indexed(h[..last], refs - {h[last].id})
            && View(h[..last], refs - {h[last].id}) == View(h, refs) - {h[last].id}
  {
    var last := |h| - 1;
    var g, r := h[..last], refs - {h[last].id};
    forall k | 0 <= k < last
      ensures OkAt(g, k)
    {
      assert OkAt(h, k);
    }
    assert View(g, r).Keys == (View(h, refs) - {h[last].id}).Keys;
    forall id | id in r
      ensures View(g, r)[id] == View(h, refs)[id]
    {
    }
  }

  lemma UpdateContents(h: seq<TimerNode>, refs: map<int, nat>, x: TimerNode)
    requires Indexed(h, refs) && x.id in refs
    ensures var g := h[refs[x.id] := x];
            Indexed(g, refs) && View(g, refs) == View(h, refs)[x.id := Entry(x.expires, x.cb)]
  {
    var g := h[refs[x.id] := x];
    var v := View(h, refs)[x.id := Entry(x.expires, x.cb)];
    assert View(g, refs).Keys == v.Keys;
    forall id | id in refs
      ensures View(g, refs)[id] == v[id]
    {
      assert h[refs[id]].id == id;
    }
  }

  lemma AppendContents(h: seq<TimerNode>, refs: map<int, nat>, x: TimerNode)
    requires Indexed(h, refs) && x.id !in refs
    ensures var g := h + [x]; var r := refs[x.id := |h|];
            Indexed(g, r) && View(g, r) == View(h, refs)[x.id := Entry(x.expires, x.cb)]
  {
    var g, r := h + [x], refs[x.id := |h|];
    assert Indexed(g, r);
    var v := View(h, refs)[x.id := Entry(x.expires, x.cb)];
    assert View(g, r).Keys == v.Keys;
    forall id | id in r
      ensures View(g, r)[id] == v[id]
    {
      assert id != x.id ==> g[refs[id]] == h[refs[id]];
    }
  }

  lemma ReleaseOne(before: map<int, Entry>, after: map<int, Entry>,
                   fired: seq<TimerNode>, clock: nat -> int, node: TimerNode)
    requires Released(before, after, fired, clock) && Due(node.expires, clock(|fired|))
    requires node.id in after && after[node.id] == Entry(node.expires, node.cb)
    requires forall id | id in after :: node.expires <= after[id].expires
    ensures Released(before, after - {node.id}, fired + [node], clock)
  {
    var f := fired + [node];
    assert FiredIds(f) == FiredIds(fired) + {node.id} by {
      assert f[|fired|].id == node.id;
      forall k | 0 <= k < |fired|
        ensures fired[k].id in FiredIds(f)
      {
        assert f[k].id == fired[k].id;
      }
    }
    assert after - {node.id} == before - FiredIds(f);
    forall k | 0 <= k < |fired|
      ensures fired[k].id != node.id && fired[k].expires <= node.expires
    {
      assert fired[k].id in FiredIds(fired);
    }
  }

  lemma AdjustGuard(h: seq<TimerNode>, g: seq<TimerNode>, i: nat)
    requires i < |h| == |g| && Ordered(h, |h|) && g == h[i := g[i]]
    ensures OkAt(g, i) <==> i == 0 || h[(i - 1) / 2].expires <= g[i].expires
    ensures !OkAt(g, i) ==> !Sinks(g, |g|, i)
  {
    if !OkAt(g, i) {
      forall c | 0 < c < |g| && (c - 1) / 2 == i
        ensures g[c].expires > g[i].expires
      {
        assert OkAt(h, c) && OkAt(h, i);
      }
    }
  }

  lemma EmptyTogether(h: seq<TimerNode>, refs: map<int, nat>)
    requires Indexed(h, refs)
    ensures h == [] <==> View(h, refs) == map[]
  {
    if h != [] {
      assert h[0].id in View(h, refs);
    } else {
      forall id
        ensures id !in refs
      {
        if id in refs { assert false; }
      }
    }
  }

  /** The root holds the least deadline over all ids. */
  lemma LeastOverall(h: seq<TimerNode>, refs: map<int, nat>)
    requires h != [] && Indexed(h, refs) && Ordered(h, |h|)
    ensures h[0].id in refs && View(h, refs)[h[0].id] == Entry(h[0].expires, h[0].cb)
    ensures forall id | id in refs :: h[0].expires <= View(h, refs)[id].expires
  {
    forall id | id in refs
      ensures h[0].expires <= View(h, refs)[id].expires
    {
      RootIsLeast(h, |h|, refs[id]);
    }
  }

  // ---------- The timer itself ----------

  class Timer {
    var heap: seq<TimerNode>
    var refs: map<int, nat>

    ghost predicate Exact()
      reads this
    {
      Indexed(heap, refs)
    }

    ghost predicate Valid()
      reads this
    {
      Exact() && Ordered(heap, |heap|)
    }

    ghost function Contents(): map<int, Entry>
      reads this
      requires Exact()
    {
      View(heap, refs)
    }

    constructor ()
      ensures Valid() && Contents() == map[]
    {
      heap, refs := [], map[];
    }

    method SwapNode(i: nat, j: nat)
      requires i < |heap| && j < |heap| && Exact()
      modifies this
      ensures heap == Swapped(old(heap), i, j)
      ensures Exact() && Rearranged(old(heap), old(refs), heap, refs)
    {
      SwapKeepsContents(heap, refs, i, j);
      heap := heap[i := heap[j]][j := heap[i]];
      refs := refs[heap[i].id := i];
      refs := refs[heap[j].id := j];
    }

    /** Repairs the prefix of length `n` when only the edge above `start` may be wrong. */
    method ShiftUp(start: nat, ghost n: nat)
      requires start < n <= |heap| && Exact()
      requires OrderedBut(heap, n, start) && LooseAt(heap, n, start)
      modifies this
      ensures Exact() && Rearranged(old(heap), old(refs), heap, refs)
      ensures |heap| == |old(heap)| && heap[n..] == old(heap)[n..]
      ensures Ordered(heap, n)
    {
      var i: nat := start;
      var j := ParentIndex(i);
      while i > 0 && heap[i].Less(heap[j])
        invariant i < n <= |heap| == |old(heap)| && j == ParentIndex(i)
        invariant Exact() && Rearranged(old(heap), old(refs), heap, refs)
        invariant heap[n..] == old(heap)[n..]
        invariant OrderedBut(heap, n, i) && LooseAt(heap, n, i)
        decreases i
      {
        ghost var h := heap;
        SwapNode(i, j);
        SwapUpKeepsShape(h, n, i);
        i := j;
        j := ParentIndex(i);
      }
      assert OkAt(heap, i);
    }

    /** Sinks the node at `index` within the first `n` slots; says whether it moved.  It moves
        exactly when some child's deadline is not strictly later. */
    method ShiftDown(index: nat, n: nat) returns (moved: bool)
      requires index < n <= |heap| && Exact() && LooseAt(heap, n, index)
      modifies this
      ensures Exact() && Rearranged(old(heap), old(refs), heap, refs)
      ensures |heap| == |old(heap)| && heap[n..] == old(heap)[n..]
      ensures OrderedBut(heap, n, index)
      ensures moved ==> Ordered(heap, n)
      ensures !moved ==> heap == old(heap)
      ensures moved <==> Sinks(old(heap), n, index)
    {
      var i := index;
      var j := i * 2 + 1;
      while j < n
        invariant index <= i < n <= |heap| && j == i * 2 + 1
        invariant Exact() && Rearranged(old(heap), old(refs), heap, refs)
        invariant |heap| == |old(heap)| && heap[n..] == old(heap)[n..]
        invariant if i == index then heap == old(heap) else Sinks(old(heap), n, index)
        invariant Sinking(heap, n, index, i)
        decreases n - i
      {
        if j + 1 < n && heap[j + 1].Less(heap[j]) { j := j + 1; }
        if heap[i].Less(heap[j]) { break; }
        SinkStep(heap, n, index, i, j);
        SwapNode(i, j);
        i := j;
        j := i * 2 + 1;
      }
      moved := i > index;
      SinkEnd(heap, n, index, i);
    }

    /** Sinks the node at `i`, or else lifts it: the two-way repair after an arbitrary change. */
    method Repair(i: nat, n: nat)
      requires i < n <= |heap| && Exact() && LooseAt(heap, n, i)
      modifies this
      ensures Exact() && Rearranged(old(heap), old(refs), heap, refs)
      ensures |heap| == |old(heap)| && heap[n..] == old(heap)[n..]
      ensures Ordered(heap, n)
    {
      var moved := ShiftDown(i, n);
      if !moved {
        ShiftUp(i, n);
      }
    }

    /** Inserts `id`, or overwrites its deadline and callback. */
    method Add(id: int, timeout: int, cb: Callback, now: int)
      requires Valid() && id >= 0
      modifies this
      ensures Valid()
      ensures Contents() == old(Contents())[id := Entry(Deadline(now, timeout), cb)]
    {
      var i: nat;
      if id !in refs {
        i := |heap|;
        ghost var h := heap;
        AppendContents(heap, refs, TimerNode(id, Deadline(now, timeout), cb));
        refs := refs[id := i];
        heap := heap + [TimerNode(id, Deadline(now, timeout), cb)];
        assert heap[..i] == h;
        forall k | 0 <= k < i
          ensures OkAt(heap, k)
        {
          assert OkAt(h, k);
        }
        ShiftUp(i, |heap|);
      } else {
        i := refs[id];
        UpdateIsLoose(heap, i, TimerNode(id, Deadline(now, timeout), cb));
        UpdateContents(heap, refs, TimerNode(id, Deadline(now, timeout), cb));
        ghost var h := heap;
        heap := heap[i := heap[i].(expires := Deadline(now, timeout))];
        heap := heap[i := heap[i].(cb := cb)];
        assert heap == h[i := TimerNode(id, Deadline(now, timeout), cb)];
        Repair(i, |heap|);
      }
    }

    /** Parks the node at `i` in the last slot and repairs the slots before it. */
    method ParkAtTail(i: nat)
      requires Valid() && i < |heap|
      modifies this
      ensures Exact() && Contents() == old(Contents())
      ensures |heap| == |old(heap)| && heap[|heap| - 1] == old(heap)[i]
      ensures Ordered(heap, |heap| - 1)
    {
      var n := |heap| - 1;
      if i < n {
        DelIsLoose(heap, i);
        SwapNode(i, n);
        ghost var tail := heap[n..];
        Repair(i, n);
        assert heap[n] == heap[n..][0] == tail[0];
      } else {
        forall k | 0 <= k < n
          ensures OkAt(heap, k)
        {
          assert OkAt(old(heap), k);
        }
      }
    }

    /** Removes the node at `index` and nothing else. */
    method Del(index: nat)
      requires Valid() && index < |heap|
      modifies this
      ensures Valid()
      ensures Contents() == old(Contents()) - {old(heap)[index].id}
      ensures |heap| == |old(heap)| - 1
    {
      ParkAtTail(index);
      DropLast(heap, refs);
      refs := refs - {heap[|heap| - 1].id};
      heap := heap[..|heap| - 1];
    }

    /** Runs the callback of `id` and forgets it; does nothing for an unknown id. */
    method DelWork(id: int) returns (fired: seq<Callback>)
      requires Valid()
      modifies this
      ensures Valid() && Contents() == old(Contents()) - {id}
      ensures fired == if id in old(Contents()) then [old(Contents())[id].cb] else []
    {
      fired := [];
      if heap == [] || id !in refs {
        return;
      }
      var i := refs[id];
      var node := heap[i];
      fired := [node.cb];
      Del(i);
    }

    /** Changes one deadline and only sifts down, so the heap stays ordered exactly when the new
        deadline is not earlier than the parent's. */
    method Adjust(id: int, timeout: int, now: int)
      requires Valid() && heap != [] && id in refs
      modifies this
      ensures Exact()
      ensures Contents() == old(Contents())[id := Entry(Deadline(now, timeout), old(Contents())[id].cb)]
      ensures Valid() <==> var i := old(refs[id]); i == 0 || old(heap)[(i - 1) / 2].expires <= Deadline(now, timeout)
    {
      var i := refs[id];
      ghost var h := heap;
      UpdateIsLoose(heap, i, heap[i].(expires := Deadline(now, timeout)));
      heap := heap[i := heap[i].(expires := Deadline(now, timeout))];
      UpdateContents(h, refs, heap[i]);
      AdjustGuard(h, heap, i);
      var moved := ShiftDown(i, |heap|);
    }

    /** Releases every node that is due, earliest first, reading the clock before each one. */
    method Tick(clock: nat -> int) returns (fired: seq<TimerNode>)
      requires Valid()
      modifies this
      ensures Valid()
      ensures TickOutcome(old(Contents()), Contents(), fired, clock)
      ensures |fired| + |heap| == |old(heap)|
    {
      fired := [];
      if heap == [] {
        return;
      }
      while heap != []
        invariant Valid() && Released(old(Contents()), Contents(), fired, clock)
        invariant |fired| + |heap| == |old(heap)|
        decreases |heap|
      {
        var node := heap[0];
        LeastOverall(heap, refs);
        if RemainingMs(node.expires, clock(|fired|)) > 0 {
          break;
        }
        ReleaseOne(old(Contents()), Contents(), fired, clock, node);
        fired := fired + [node];
        Pop();
      }
    }

    method Pop()
      requires Valid() && heap != []
      modifies this
      ensures Valid() && Contents() == old(Contents()) - {old(heap)[0].id}
      ensures |heap| == |old(heap)| - 1
    {
      Del(0);
    }

    /** Releases what is due, then says how long `epoll_wait` may sleep: -1 when no deadline is
        left, else the whole milliseconds to the least deadline at one further clock reading. */
    method GetNextTick(clock: nat -> int) returns (timeMs: int, fired: seq<TimerNode>)
      requires Valid()
      modifies this
      ensures Valid() && NextTickOutcome(old(Contents()), Contents(), timeMs, fired, clock)
    {
      fired := Tick(clock);
      var res := SIZE_MAX;
      if heap != [] {
        LeastOverall(heap, refs);
        res := SizeT(RemainingMs(heap[0].expires, clock(|fired| + 1)));
        NarrowTwice(RemainingMs(heap[0].expires, clock(|fired| + 1)));
        if res < 0 { res := 0; }
      }
      timeMs := Int32(res);
      if heap == [] {
        EmptyTogether(heap, refs);
      } else {
        SleepSign(heap[0].expires, clock(|fired|), clock(|fired| + 1));
        assert IsEarliest(Contents(), heap[0].id)
               && timeMs == Int32(RemainingMs(Contents()[heap[0].id].expires, clock(|fired| + 1)));
      }
    }

    method Clear()
      modifies this
      ensures Valid() && Contents() == map[]
    {
      refs := map[];
      heap := [];
    }
  }

  /** A clock that reads 0 first and 11 milliseconds ever after. */
  function LateSecondReading(): nat -> int { reading => if reading == 0 then 0 else 11 * NS_PER_MS }

  /** One deadline, ten milliseconds ahead at the tick's reading and one behind at the next: the server
      is told to sleep for ever although a connection is overdue. */
  method OverdueSleepsForGood(timer: Timer, id: int) returns (timeMs: int, fired: seq<TimerNode>)
    requires timer.Valid() && timer.Contents() == map[id := Entry(Deadline(0, 10), CloseConn(id))]
    modifies timer
    ensures timer.Valid()
    ensures NextTickOutcome(old(timer.Contents()), timer.Contents(), timeMs, fired, LateSecondReading())
    ensures timeMs == -1 && fired == [] && timer.Contents() == old(timer.Contents())
  {
    timeMs, fired := timer.GetNextTick(LateSecondReading());
    assert id in timer.Contents() || (fired != [] && Due(fired[0].expires, 0));
    assert timer.Contents() == map[id := Entry(Deadline(0, 10), CloseConn(id))];
  }
}
