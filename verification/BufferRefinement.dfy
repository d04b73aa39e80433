/** Whole runs of the buffer, against a plain queue of bytes. */
module BufferRefinement {
  import opened Common
  import opened Sockets
  import opened Buffers

  /** One call on the buffer, with whatever the outside world contributes to it. */
  datatype Op =
    | Write(bytes: Bytes)
    | Read(len: nat)
    | ReadEverything
    | Advance(len: nat)
    | ReadFd(arrival: Bytes)        // the kernel delivers as much of this as fits
    | ReadFdFails(errno: int)
    | WriteFd(outcome: IoOutcome)

  /** What one call did to a queue of bytes. */
  datatype Event = In(bytes: Bytes) | Out(bytes: Bytes)

  function QueueStep(q: Bytes, e: Event): Option<Bytes> {
    match e
    case In(bytes) => Some(q + bytes)
    case Out(bytes) => if bytes <= q then Some(q[|bytes|..]) else None
  }

  /** The plain queue after a trace; `None` when it would hand out bytes it does not have at its head. */
  function QueueAfter(q: Bytes, trace: seq<Event>): Option<Bytes> {
    if trace == [] then Some(q) else
      match QueueAfter(q, trace[..|trace| - 1])
      case None => None
      case Some(p) => QueueStep(p, trace[|trace| - 1])
  }

  /** The longest the plain queue ever was. */
  function Peak(q: Bytes, trace: seq<Event>): nat {
    if trace == [] then |q| else
      var before := Peak(q, trace[..|trace| - 1]);
      match QueueAfter(q, trace)
      case None => before
      case Some(p) => Max(before, |p|)
  }

  /** `e` is a right answer to `op` on a queue holding `q`. */
  ghost predicate Answers(op: Op, q: Bytes, e: Event) {
    match op
    case Write(bytes) => e == In(bytes)
    case Read(len) => e == Out(q[..Min(len, |q|)])
    case ReadEverything => e == Out(q)
    case Advance(len) => e == Out(q[..Min(len, |q|)])
    case ReadFd(arrival) => e.In? && e.bytes <= arrival
    case ReadFdFails(_) => e == In([])
    case WriteFd(outcome) => e.Out? && e.bytes <= q
  }

  /** Every event of the trace answers its call, on the queue the earlier events left behind. */
  ghost predicate Simulates(q: Bytes, ops: seq<Op>, trace: seq<Event>)
  {
    && |trace| == |ops|
    && forall i :: 0 <= i < |ops| ==>
      QueueAfter(q, trace[..i]).Some? && Answers(ops[i], QueueAfter(q, trace[..i]).value, trace[i])
  }

  function Ins(trace: seq<Event>): Bytes {
    if trace == [] then [] else
      Ins(trace[..|trace| - 1]) + if trace[|trace| - 1].In? then trace[|trace| - 1].bytes else []
  }

  function Outs(trace: seq<Event>): Bytes {
    if trace == [] then [] else
      Outs(trace[..|trace| - 1]) + if trace[|trace| - 1].Out? then trace[|trace| - 1].bytes else []
  }

  /** A byte queue is first-in first-out: what went in is what came out plus what is left. */
  lemma {:induction false} QueueIsFifo(q: Bytes, trace: seq<Event>)
    requires QueueAfter(q, trace).Some?
    ensures q + Ins(trace) == Outs(trace) + QueueAfter(q, trace).value
  {
    if trace != [] {
      var front, last := trace[..|trace| - 1], trace[|trace| - 1];
      QueueIsFifo(q, front);
      var p := QueueAfter(q, front).value;
      match last
      case In(bytes) =>
        assert q + Ins(trace) == (q + Ins(front)) + bytes == Outs(front) + (p + bytes);
      case Out(bytes) =>
        assert p == bytes + p[|bytes|..];
        assert q + Ins(trace) == q + Ins(front) == (Outs(front) + bytes) + p[|bytes|..];
    }
  }

  lemma Extend(q: Bytes, ops: seq<Op>, n: nat, trace: seq<Event>, e: Event)
    requires n < |ops| && Simulates(q, ops[..n], trace)
    requires QueueAfter(q, trace).Some? && Answers(ops[n], QueueAfter(q, trace).value, e)
    ensures Simulates(q, ops[..n + 1], trace + [e])
    ensures QueueAfter(q, trace + [e]) == QueueStep(QueueAfter(q, trace).value, e)
  {
    var longer := trace + [e];
    assert longer[..n] == trace;
    forall i | 0 <= i < n + 1
      ensures QueueAfter(q, longer[..i]).Some? && Answers(ops[..n + 1][i], QueueAfter(q, longer[..i]).value, longer[i])
    {
      if i < n {
        assert longer[..i] == trace[..i];
        assert ops[..n][i] == ops[i];
      }
    }
  }

  /** The calls that only take bytes out. */
  method PerformRead(b: Buffer, op: Op) returns (e: Event)
    requires b.Valid() && (op.Read? || op.ReadEverything? || op.Advance?)
    modifies b`readIndex, b`writeIndex
    ensures b.Valid() && Answers(op, old(b.Contents()), e)
    ensures QueueStep(old(b.Contents()), e) == Some(b.Contents())
  {
    ghost var q := b.Contents();
    match op {
      case Read(len) =>
        var str := b.ReadFromBuffer(len);
        assert q[..|str|] == str && q[|str|..] == b.Contents();
        e := Out(str);
      case ReadEverything =>
        var str := b.ReadAll();
        assert str[|str|..] == b.Contents();
        e := Out(str);
      case Advance(len) =>
        var n := Min(len, b.ReadableBytes());
        e := Out(b.data[b.readIndex..b.readIndex + n]);
        b.AdvanceReadIndex(n);
    }
  }

  /** Performs one call; the event says what the queue gained or lost. */
  method Perform(b: Buffer, socket: Socket, op: Op) returns (e: Event)
    requires b.Valid()
    modifies b, b.data, socket`wire
    ensures b.Valid() && (b.data == old(b.data) || fresh(b.data))
    ensures Answers(op, old(b.Contents()), e)
    ensures QueueStep(old(b.Contents()), e) == Some(b.Contents())
    ensures socket.wire == old(socket.wire) + if op.WriteFd? then e.bytes else []
    ensures b.peak == Max(old(b.peak), |b.Contents()|)
  {
    ghost var q := b.Contents();
    match op {
      case Write(bytes) =>
        b.WriteToBuffer(bytes);
        e := In(bytes);
      case Read(_) => e := PerformRead(b, op);
      case ReadEverything => e := PerformRead(b, op);
      case Advance(_) => e := PerformRead(b, op);
      case ReadFd(arrival) =>
        var bytes := arrival[..Min(|arrival|, b.ReadCapacity())];
        var n, errno := b.ReadFromFd(Delivered(bytes));
        e := In(bytes);
      case ReadFdFails(errno) =>
        var n, saved := b.ReadFromFd(ReadFailed(errno));
        assert q + [] == q;
        e := In([]);
      case WriteFd(outcome) =>
        ghost var before := socket.wire;
        var start := b.data[b.readIndex..b.writeIndex];
        var result := b.WriteToFd(socket, outcome);
        MoveSplits(before, q, socket.wire, b.Contents());
        e := Out(start[..result.Moved()]);
    }
  }

  /**
   * For every sequence of calls the buffer behaves as a plain byte queue, and its array never
   * outgrows twice the longest queue (or its first size).
   */
  method Replay(b: Buffer, socket: Socket, ops: seq<Op>) returns (trace: seq<Event>)
    requires b.Valid()
    modifies b, b.data, socket`wire
    ensures b.Valid()
    ensures Simulates(old(b.Contents()), ops, trace)
    ensures QueueAfter(old(b.Contents()), trace) == Some(b.Contents())
    ensures b.peak == Max(old(b.peak), Peak(old(b.Contents()), trace))
    ensures b.data.Length <= Max(CHEAP_PREPEND + b.initialSize, 2 * b.peak + CHEAP_PREPEND - 1)
  {
    trace := [];
    ghost var q0 := b.Contents();
    for n := 0 to |ops|
      invariant b.Valid() && (b.data == old(b.data) || fresh(b.data))
      invariant Simulates(q0, ops[..n], trace)
      invariant QueueAfter(q0, trace) == Some(b.Contents())
      invariant b.peak == Max(old(b.peak), Peak(q0, trace))
    {
      var e := Perform(b, socket, ops[n]);
      Extend(q0, ops, n, trace, e);
      assert (trace + [e])[..|trace|] == trace;
      trace := trace + [e];
    }
    assert ops[..|ops|] == ops;
  }
}
