/** The ring-buffer queue of utils/queue.go: a power-of-two buffer indexed with a bit mask that
    doubles when full and shrinks when a quarter full. It refines a plain sequence, keeps every
    dead cell nil, and copies at most two elements per Add and one per Remove. */
module RingQueue {
  import opened Bits

  const MIN_QUEUE_LEN: nat := 16

  /** A buffer cell: the nil the source stores in dead cells, or an element. */
  datatype Cell<T> = Nil | Elem(value: T)

  /** The result of an operation that panics on a bad index or an empty queue. */
  datatype Outcome<T> = Panic | Done(value: T)

  // ---------------------------------------------------------------- capacities

  /** A power of two, at least MIN_QUEUE_LEN. */
  ghost predicate IsCapacity(n: nat)
  {
    exists k: nat :: k >= 4 && n == Pow2(k)
  }

  lemma CapacityFacts(n: nat)
    requires IsCapacity(n)
    ensures n >= MIN_QUEUE_LEN && n % 16 == 0
    ensures IsCapacity(2 * n)
    ensures n > MIN_QUEUE_LEN ==> IsCapacity(n / 2)
  {
    var k: nat :| k >= 4 && n == Pow2(k);
    Pow2Of(k - 4);
    assert 2 * n == Pow2(k + 1);
    if k > 4 {
      assert n / 2 == Pow2(k - 1);
    }
  }

  lemma Pow2Of(k: nat)
    ensures Pow2(k + 4) == 16 * Pow2(k)
  {
    assert Pow2(k + 1) == 2 * Pow2(k);
    assert Pow2(k + 2) == 2 * Pow2(k + 1);
    assert Pow2(k + 3) == 2 * Pow2(k + 2);
  }

  /** The source's `x & (len(buf) - 1)`: on a capacity the bit mask is the remainder. */
  function Wrap(x: nat, cap: nat): (r: nat)
    requires IsCapacity(cap)
    ensures r == x % cap < cap
  {
    CapacityFacts(cap);
    assert And(x, cap - 1) == x % cap by {
      var k: nat :| k >= 4 && cap == Pow2(k);
      AndMask(x, k);
    }
    And(x, cap - 1)
  }

  /** Within two turns of the ring the mask subtracts the capacity at most once. */
  function Turn(x: nat, cap: nat): nat
    requires x < 2 * cap
  {
    if x < cap then x else x - cap
  }

  lemma WrapIsTurn(x: nat, cap: nat)
    requires IsCapacity(cap) && x < 2 * cap
    ensures Wrap(x, cap) == Turn(x, cap)
  {
    if x < cap {
      RemainderIs(x, cap, 0, x);
    } else {
      RemainderIs(x, cap, 1, x - cap);
    }
  }

  // ------------------------------------------------------------ abstract layout

  /** How far buffer index j lies behind the head. */
  function Offset(head: nat, j: nat, cap: nat): nat
    requires head < cap && j < cap
  {
    if head <= j then j - head else j + cap - head
  }

  /** What a cell at that distance must hold. */
  function CellAt<T>(s: seq<T>, offset: nat): Cell<T>
  {
    if offset < |s| then Elem(s[offset]) else Nil
  }

  // --------------------------------------------------- the sizes and their cost

  /** Element count, buffer capacity, and the number of elements copied by resizing so far. */
  datatype Sizes = Sizes(count: nat, cap: nat, copied: nat)

  datatype Op = AddOp | RemoveOp

  /** Add copies the whole queue into twice the room when the buffer is full. */
  function AfterAdd(s: Sizes): Sizes
  {
    if s.count == s.cap then Sizes(s.count + 1, 2 * s.count, s.copied + s.count)
    else Sizes(s.count + 1, s.cap, s.copied)
  }

  /** Remove copies the rest into twice the room it needs when a quarter of the buffer is left. */
  function AfterRemove(s: Sizes): Sizes
  {
    if s.count == 0 then s
    else if s.cap > MIN_QUEUE_LEN && 4 * (s.count - 1) == s.cap then
      Sizes(s.count - 1, 2 * (s.count - 1), s.copied + (s.count - 1))
    else Sizes(s.count - 1, s.cap, s.copied)
  }

  ghost predicate SizesOk(s: Sizes)
  {
    && IsCapacity(s.cap)
    && s.count <= s.cap
    && (s.cap == MIN_QUEUE_LEN || s.cap < 4 * s.count)
  }

  /** Credit saved up for the next resize; nothing is left of it right after one. */
  function Potential(s: Sizes): int
  {
    if 2 * s.count >= s.cap then 2 * s.count - s.cap
    else if s.cap == MIN_QUEUE_LEN then 0
    else s.cap / 2 - s.count
  }

  const START: Sizes := Sizes(0, MIN_QUEUE_LEN, 0)

  function RunSizes(ops: seq<Op>): Sizes
  {
    if ops == [] then START
    else
      var s := RunSizes(ops[..|ops| - 1]);
      if ops[|ops| - 1].AddOp? then AfterAdd(s) else AfterRemove(s)
  }

  function CountOf(ops: seq<Op>, op: Op): nat
  {
    if ops == [] then 0
    else CountOf(ops[..|ops| - 1], op) + if ops[|ops| - 1] == op then 1 else 0
  }

  lemma StepKeepsSizes(s: Sizes)
    requires SizesOk(s)
    ensures SizesOk(AfterAdd(s)) && SizesOk(AfterRemove(s))
    ensures AfterAdd(s).copied + Potential(AfterAdd(s)) <= s.copied + Potential(s) + 2
    ensures AfterRemove(s).copied + Potential(AfterRemove(s)) <= s.copied + Potential(s) + 1
    ensures AfterRemove(s).copied > s.copied ==> Potential(AfterRemove(s)) == 0
    ensures AfterAdd(s).copied > s.copied ==> Potential(AfterAdd(s)) == 2
  {
    CapacityFacts(s.cap);
  }

  lemma StartIsOk()
    ensures SizesOk(START)
  {
    Pow2Of(0);
    assert Pow2(4) == 16;
  }

  /** Over every run of Add and Remove from an empty queue, resizing copies at most two elements
      per Add and one per Remove, and the buffer is minimal or less than four times the contents. */
  lemma {:induction false} AmortisedCost(ops: seq<Op>)
    ensures SizesOk(RunSizes(ops))
    ensures RunSizes(ops).copied + Potential(RunSizes(ops)) <= 2 * CountOf(ops, AddOp) + CountOf(ops, RemoveOp)
    ensures RunSizes(ops).copied <= 2 * CountOf(ops, AddOp) + CountOf(ops, RemoveOp)
  {
    if ops == [] {
      StartIsOk();
    } else {
      AmortisedCost(ops[..|ops| - 1]);
      StepKeepsSizes(RunSizes(ops[..|ops| - 1]));
    }
  }

  // ------------------------------------------------------------------ the queue

  class Queue<T> {
    var buf: array<Cell<T>>
    var head: nat
    var tail: nat
    var count: nat
    ghost var contents: seq<T>
    ghost var copied: nat

    ghost function Size(): Sizes
      reads this
    {
      Sizes(count, buf.Length, copied)
    }

    /** Every cell is exactly what the contents put there, and nil elsewhere. */
    ghost predicate LaidOut()
      reads this, buf
    {
      && head < buf.Length
      && forall j :: 0 <= j < buf.Length ==> buf[j] == CellAt(contents, Offset(head, j, buf.Length))
    }

    ghost predicate IsRing()
      reads this, buf
    {
      && IsCapacity(buf.Length)
      && count == |contents| <= buf.Length
      && LaidOut()
      && tail == Turn(head + count, buf.Length)
    }

    ghost predicate Valid()
      reads this, buf
    {
      SizesOk(Size()) && IsRing()
    }

    constructor ()
      ensures Valid() && fresh(buf)
      ensures contents == [] && Size() == START
    {
      buf := new Cell<T>[MIN_QUEUE_LEN](_ => Nil);
      head, tail, count := 0, 0, 0;
      contents, copied := [], 0;
      StartIsOk();
    }

    method Length() returns (n: nat)
      requires Valid()
      ensures n == |contents|
    {
      n := count;
    }

    /** Moves the contents to the front of a buffer twice their number. */
    method Resize()
      requires IsRing() && 0 < count && IsCapacity(2 * count)
      modifies this
      ensures IsRing() && fresh(buf) && buf.Length == 2 * count
      ensures contents == old(contents) && count == old(count) && copied == old(copied) + count
    {
      hide IsCapacity;
      var newBuf := new Cell<T>[2 * count](_ => Nil);
      if tail > head {
        var n := Copy(newBuf, 0, buf, head, tail);
        copied := copied + n;
      } else {
        var n := Copy(newBuf, 0, buf, head, buf.Length);
        var k := Copy(newBuf, n, buf, 0, tail);
        copied := copied + n + k;
      }
      head := 0;
      tail := count;
      buf := newBuf;
    }

    method PutLast(elem: T)
      requires IsRing() && count < buf.Length
      modifies this, buf
      ensures IsRing() && buf == old(buf) && copied == old(copied)
      ensures contents == old(contents) + [elem]
    {
      hide IsCapacity;
      WrapIsTurn(tail + 1, buf.Length);
      buf[tail] := Elem(elem);
      tail := Wrap(tail + 1, buf.Length);
      count := count + 1;
      contents := contents + [elem];
    }

    method TakeFirst() returns (x: T)
      requires IsRing() && 0 < count
      modifies this, buf
      ensures IsRing() && buf == old(buf) && copied == old(copied)
      ensures x == old(contents)[0] && contents == old(contents)[1..]
    {
      hide IsCapacity;
      WrapIsTurn(head + 1, buf.Length);
      x := buf[head].value;
      buf[head] := Nil;
      head := Wrap(head + 1, buf.Length);
      count := count - 1;
      contents := contents[1..];
    }

    /** Adds an element at the end; the contents grow by exactly it. */
    method Add(elem: T)
      requires Valid()
      modifies this, buf
      ensures Valid() && (buf == old(buf) || fresh(buf))
      ensures contents == old(contents) + [elem]
      ensures Size() == AfterAdd(old(Size()))
    {
      StepKeepsSizes(Size());
      CapacityFacts(buf.Length);
      if count == buf.Length {
        Resize();
      }
      PutLast(elem);
    }

    /** The oldest element, or a panic on an empty queue. */
    method Peek() returns (r: Outcome<T>)
      requires Valid()
      ensures r == if contents == [] then Panic else Done(contents[0])
    {
      if count <= 0 {
        return Panic;
      }
      r := Done(buf[head].value);
    }

    /** Element i from the front, or from the back when i is negative; a panic out of range. */
    method Get(i: int) returns (r: Outcome<T>)
      requires Valid()
      ensures 0 <= i < |contents| ==> r == Done(contents[i])
      ensures -|contents| <= i < 0 ==> r == Done(contents[|contents| + i])
      ensures i >= |contents| || i < -|contents| ==> r == Panic
    {
      var k := i;
      if k < 0 {
        k := k + count;
      }
      if k < 0 || k >= count {
        return Panic;
      }
      WrapIsTurn(head + k, buf.Length);
      var j := Wrap(head + k, buf.Length);
      assert Offset(head, j, buf.Length) == k;
      r := Done(buf[j].value);
    }

    /** Takes the oldest element; a panic leaves the queue as it was. */
    method Remove() returns (r: Outcome<T>)
      requires Valid()
      modifies this, buf
      ensures Valid() && (buf == old(buf) || fresh(buf))
      ensures old(contents) == [] ==> r == Panic && contents == []
      ensures old(contents) != [] ==> r == Done(old(contents)[0]) && contents == old(contents)[1..]
      ensures Size() == AfterRemove(old(Size()))
    {
      if count <= 0 {
        return Panic;
      }
      StepKeepsSizes(Size());
      CapacityFacts(buf.Length);
      var x := TakeFirst();
      r := Done(x);
      if buf.Length > MIN_QUEUE_LEN && 4 * count == buf.Length {
        Resize();
      }
    }
  }

  /** Go's copy of src[lo..hi] to dst from at on; there is room for all of it. */
  method Copy<T>(dst: array<Cell<T>>, at: nat, src: array<Cell<T>>, lo: nat, hi: nat) returns (n: nat)
    requires dst != src && lo <= hi <= src.Length && at + (hi - lo) <= dst.Length
    modifies dst
    ensures n == hi - lo
    ensures forall i :: 0 <= i < dst.Length ==>
      dst[i] == if at <= i < at + n then src[lo + (i - at)] else old(dst[i])
  {
    n := 0;
    while lo + n < hi
      invariant 0 <= n <= hi - lo
      invariant forall i :: 0 <= i < dst.Length ==>
        dst[i] == if at <= i < at + n then src[lo + (i - at)] else old(dst[i])
    {
      dst[at + n] := src[lo + n];
      n := n + 1;
    }
  }

  // ----------------------------------------------------------- whole runs

  datatype Request<T> = Put(elem: T) | Take | Front | At(i: int)

  /** The plain first-in first-out sequence the queue stands for. */
  function FifoStep<T>(s: seq<T>, req: Request<T>): seq<T>
  {
    match req
    case Put(x) => s + [x]
    case Take => if s == [] then [] else s[1..]
    case _ => s
  }

  function FifoState<T>(reqs: seq<Request<T>>): seq<T>
  {
    if reqs == [] then [] else FifoStep(FifoState(reqs[..|reqs| - 1]), reqs[|reqs| - 1])
  }

  function FifoReply<T>(s: seq<T>, req: Request<T>): Outcome<T>
  {
    match req
    case Put(x) => Done(x)
    case At(i) =>
      if 0 <= i < |s| then Done(s[i]) else if -|s| <= i < 0 then Done(s[|s| + i]) else Panic
    case _ => if s == [] then Panic else Done(s[0])
  }

  /** The operations among the requests that change the sizes. */
  function ChangeStep<T>(cs: seq<Op>, req: Request<T>): seq<Op>
  {
    match req
    case Put(_) => cs + [AddOp]
    case Take => cs + [RemoveOp]
    case _ => cs
  }

  function Changes<T>(reqs: seq<Request<T>>): seq<Op>
  {
    if reqs == [] then [] else ChangeStep(Changes(reqs[..|reqs| - 1]), reqs[|reqs| - 1])
  }

  lemma NextState<T>(reqs: seq<Request<T>>, n: nat)
    requires n < |reqs|
    ensures FifoState(reqs[..n + 1]) == FifoStep(FifoState(reqs[..n]), reqs[n])
    ensures Changes(reqs[..n + 1]) == ChangeStep(Changes(reqs[..n]), reqs[n])
  {
    assert reqs[..n + 1][..n] == reqs[..n];
  }

  ghost predicate Answers<T>(replies: seq<Outcome<T>>, reqs: seq<Request<T>>)
  {
    && |replies| <= |reqs|
    && forall k :: 0 <= k < |replies| ==> replies[k] == FifoReply(FifoState(reqs[..k]), reqs[k])
  }

  /** Every run answers as the plain sequence does, through wraparound and both resizes, and
      copies no more than two elements per Add and one per Remove. */
  method Serve<T>(reqs: seq<Request<T>>) returns (replies: seq<Outcome<T>>, ghost copied: nat)
    ensures |replies| == |reqs| && Answers(replies, reqs)
    ensures copied == RunSizes(Changes(reqs)).copied
    ensures copied <= 2 * CountOf(Changes(reqs), AddOp) + CountOf(Changes(reqs), RemoveOp)
  {
    var q := new Queue<T>();
    replies := [];
    while |replies| < |reqs|
      invariant Answers(replies, reqs)
      invariant q.Valid() && fresh(q) && fresh(q.buf)
      invariant q.contents == FifoState(reqs[..|replies|])
      invariant q.Size() == RunSizes(Changes(reqs[..|replies|]))
    {
      NextState(reqs, |replies|);
      var reply := ServeOne(q, reqs[|replies|], Changes(reqs[..|replies|]));
      replies := replies + [reply];
    }
    assert reqs[..|reqs|] == reqs;
    copied := q.copied;
    AmortisedCost(Changes(reqs));
  }

  method ServeOne<T>(q: Queue<T>, req: Request<T>, ghost before: seq<Op>) returns (reply: Outcome<T>)
    requires q.Valid() && q.Size() == RunSizes(before)
    modifies q, q.buf
    ensures q.Valid() && (q.buf == old(q.buf) || fresh(q.buf))
    ensures reply == FifoReply(old(q.contents), req)
    ensures q.contents == FifoStep(old(q.contents), req)
    ensures q.Size() == RunSizes(ChangeStep(before, req))
  {
    match req
    case Put(x) =>
      assert (before + [AddOp])[..|before|] == before;
      q.Add(x);
      reply := Done(x);
    case Take =>
      assert (before + [RemoveOp])[..|before|] == before;
      reply := q.Remove();
    case Front =>
      reply := q.Peek();
    case At(i) =>
      reply := q.Get(i);
  }
}
