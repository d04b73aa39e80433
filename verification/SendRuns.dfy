/** Laws of the send path over whole runs: conservation, order, completion and progress. */
module SendRuns {
  import opened Common
  import opened Sockets
  import opened SendFlow
  import opened TcpConnections

  /** One event in the life of a connection, with the kernel's answers to its system calls. */
  datatype Op =
    | DoSend(msg: Bytes, outcome: IoOutcome)
    | DoSendFile(file: FileRef, size: nat, offset: nat, outcome: IoOutcome)
    | DoSendFileWithHeader(header: Bytes, file: FileRef, size: nat, offset: nat, outcome: IoOutcome)
    | DoWrite(outcome: IoOutcome, fileOutcome: IoOutcome)
    | DoForceClose
    | DoSetMark(mark: nat)

  function Apply(f: Flow, op: Op): Flow {
    match op
    case DoSend(msg, o) => Send(f, msg, o)
    case DoSendFile(file, size, offset, o) => SendFile(f, file, size, offset, o)
    case DoSendFileWithHeader(header, file, size, offset, o) => SendFileWithHeader(f, header, file, size, offset, o)
    case DoWrite(o, fo) => OnWrite(f, o, fo)
    case DoForceClose => f.Close()
    case DoSetMark(mark) => f.(mark := Some(mark))
  }

  /** The bytes the connection takes responsibility for in this step. */
  function Payload(f: Flow, op: Op): Bytes {
    if !f.open || f.file.Some? then [] else
      match op
      case DoSend(msg, o) => SendPayload(f, msg, o)
      case DoSendFile(file, size, offset, _) =>
        if size > 0 && file.Regular? then Clip(file.content, offset, size) else []
      case DoSendFileWithHeader(header, file, size, offset, o) =>
        if size == 0 then SendPayload(f, header, o)
        else if file.Regular? then header + Clip(file.content, offset, size) else []
      case _ => []
  }

  function SendPayload(f: Flow, msg: Bytes, o: IoOutcome): Bytes {
    if ClampOutcome(o, |f.backlog + msg|).Error? then [] else msg
  }

  /** The connection takes on a file with this step. */
  predicate AcceptsFile(f: Flow, op: Op) {
    && f.open && f.file.None?
    && ((op.DoSendFile? && op.size > 0 && op.file.Regular?)
        || (op.DoSendFileWithHeader? && op.size > 0 && op.file.Regular?))
  }

  /** The step calls `sendfile` and it moves nothing. */
  predicate Abandons(f: Flow, op: Op) {
    match op
    case DoSendFile(_, _, _, o) =>
      AcceptsFile(f, op) && f.backlog == [] && ClampOutcome(o, |InHand(f, op).bytes|) == Moved(0)
    case DoWrite(o, fo) =>
      && f.open && f.file.Some? && (f.backlog == [] || ClampOutcome(o, |f.backlog|) == Moved(|f.backlog|))
      && ClampOutcome(fo, |InHand(f, op).bytes|) == Moved(0)
    case _ => false
  }

  /** The file this step would send from. */
  function InHand(f: Flow, op: Op): FileTail {
    if AcceptsFile(f, op) then TailOf(op.file.content, op.offset, op.size)
    else if f.file.Some? then f.file.value else FileTail([], 0)
  }

  /** The bytes given up in this step: `sendfile` moved nothing although the file had bytes left. */
  function Lost(f: Flow, op: Op): nat {
    if Abandons(f, op) then |InHand(f, op).bytes| else 0
  }

  function Run(f: Flow, ops: seq<Op>): Flow {
    if ops == [] then f else Apply(Run(f, ops[..|ops| - 1]), ops[|ops| - 1])
  }

  function Accepted(f: Flow, ops: seq<Op>): Bytes {
    if ops == [] then [] else
      Accepted(f, ops[..|ops| - 1]) + Payload(Run(f, ops[..|ops| - 1]), ops[|ops| - 1])
  }

  /** A measure of steps, summed over a run. */
  function Total(measure: (Flow, Op) -> nat, f: Flow, ops: seq<Op>): nat {
    if ops == [] then 0 else
      Total(measure, f, ops[..|ops| - 1]) + measure(Run(f, ops[..|ops| - 1]), ops[|ops| - 1])
  }

  function Abandoned(f: Flow, ops: seq<Op>): nat { Total(Lost, f, ops) }

  /** Everything the connection has sent or still owes, in order. */
  function Owed(f: Flow): Bytes { f.wire + f.Unsent() }

  /** Moving a prefix from the queue to the wire changes nothing that is owed. */
  lemma MoveKeeps(wire: Bytes, queue: Bytes, n: nat, rest: Bytes)
    requires n <= |queue|
    ensures (wire + queue[..n]) + (queue[n..] + rest) == wire + (queue + rest)
    ensures (wire + queue[..n]) + queue[n..] == wire + queue
  {
  }

  lemma SendConserves(f: Flow, msg: Bytes, o: IoOutcome)
    requires f.open && f.file.None?
    ensures Owed(Send(f, msg, o)) == Owed(f) + SendPayload(f, msg, o)
  {
    var queue := f.backlog + msg;
    var result := ClampOutcome(o, |queue|);
    if result.Error? {
      assert Owed(f) + [] == Owed(f);
    } else {
      MoveKeeps(f.wire, queue, result.Moved(), []);
      assert Owed(Send(f, msg, o)) == f.wire + queue;
      assert f.wire + queue == (f.wire + f.backlog) + msg;
    }
  }

  lemma SendPendingConserves(f: Flow, o: IoOutcome)
    requires f.file.Some? && f.backlog == []
    ensures
      var g := SendPendingFile(f, o);
      var lost := if f.Try(o, |f.file.value.bytes|) == Moved(0) then |f.file.value.bytes| else 0;
      && Owed(g) == Owed(f)[..|Owed(f)| - lost]
      && g.backlog == []
  {
    var bytes := f.file.value.bytes;
    EmptyFront(bytes);
    assert Owed(f) == f.wire + bytes;
    TakeFront(f.wire, bytes);
    match f.Try(o, |bytes|)
    case Moved(n) =>
      if n > 0 {
        MoveKeeps(f.wire, bytes, n, []);
        EmptyFront(bytes[n..]);
        assert Owed(SendPendingFile(f, o)) == (f.wire + bytes[..n]) + bytes[n..];
      }
    case _ =>
  }

  /** One step: what was owed, plus what was accepted, minus what was given up at the very end. */
  lemma StepConserves(f: Flow, op: Op)
    ensures
      var due := Owed(f) + Payload(f, op);
      && Lost(f, op) <= |due|
      && Owed(Apply(f, op)) == due[..|due| - Lost(f, op)]
  {
    var due := Owed(f) + Payload(f, op);
    assert due[..|due|] == due;
    match op
    case DoSend(msg, o) =>
      if f.open && f.file.None? { SendConserves(f, msg, o); }
    case DoSendFile(file, size, offset, o) => SendFileConserves(f, file, size, offset, o);
    case DoSendFileWithHeader(header, file, size, offset, o) => HeaderConserves(f, header, file, size, offset, o);
    case DoWrite(o, fo) => WriteConserves(f, o, fo);
    case DoForceClose =>
    case DoSetMark(_) =>
  }

  lemma SendFileConserves(f: Flow, file: FileRef, size: nat, offset: nat, o: IoOutcome)
    ensures
      var op := DoSendFile(file, size, offset, o);
      var due := Owed(f) + Payload(f, op);
      && Lost(f, op) <= |due|
      && Owed(SendFile(f, file, size, offset, o)) == due[..|due| - Lost(f, op)]
  {
    var due := Owed(f) + Payload(f, DoSendFile(file, size, offset, o));
    assert due[..|due|] == due;
    if f.open && size > 0 && file.Regular? && f.file.None? {
      var g := f.(file := Some(TailOf(file.content, offset, size)));
      assert Owed(g) == due;
      if f.backlog == [] { SendPendingConserves(g, o); }
    } else {
      assert due == Owed(f);
    }
  }

  lemma HeaderConserves(f: Flow, header: Bytes, file: FileRef, size: nat, offset: nat, o: IoOutcome)
    ensures
      Owed(SendFileWithHeader(f, header, file, size, offset, o)) ==
        Owed(f) + Payload(f, DoSendFileWithHeader(header, file, size, offset, o))
  {
    assert Owed(f) + [] == Owed(f);
    if f.open && f.file.None? && size == 0 {
      SendConserves(f, header, o);
    } else if f.open && f.file.None? && file.Regular? {
      var clip := Clip(file.content, offset, size);
      Assoc(f.wire, f.backlog, header + clip);
      Assoc(f.backlog, header, clip);
    }
  }

  lemma WriteConserves(f: Flow, o: IoOutcome, fo: IoOutcome)
    ensures
      var lost := Lost(f, DoWrite(o, fo));
      && lost <= |Owed(f)|
      && Owed(OnWrite(f, o, fo)) == Owed(f)[..|Owed(f)| - lost]
  {
    assert Owed(f)[..|Owed(f)|] == Owed(f);
    if f.backlog == [] {
      FlushConserves(f, fo);
    } else if f.Try(o, |f.backlog|).Moved? {
      var n := f.Try(o, |f.backlog|).n;
      var g := f.(wire := f.wire + f.backlog[..n], backlog := f.backlog[n..]);
      MovedIsOwed(f, n);
      if g.backlog == [] { FlushConserves(g, fo); }
    }
  }

  lemma MovedIsOwed(f: Flow, n: nat)
    requires n <= |f.backlog|
    ensures Owed(f.(wire := f.wire + f.backlog[..n], backlog := f.backlog[n..])) == Owed(f)
  {
    MoveKeeps(f.wire, f.backlog, n, if f.file.Some? then f.file.value.bytes else []);
  }

  lemma FlushConserves(f: Flow, o: IoOutcome)
    requires f.backlog == []
    ensures
      var lost := if f.file.Some? && f.Try(o, |f.file.value.bytes|) == Moved(0) then |f.file.value.bytes| else 0;
      && lost <= |Owed(f)|
      && Owed(FlushFile(f, o)) == Owed(f)[..|Owed(f)| - lost]
  {
    if f.file.Some? { SendPendingConserves(f, o); }
  }

  /** Nothing is counted twice: sent, unsent and abandoned bytes add up to the accepted ones. */
  lemma {:induction false} BytesAddUp(f: Flow, ops: seq<Op>)
    ensures |Owed(Run(f, ops))| + Abandoned(f, ops) == |Owed(f)| + |Accepted(f, ops)|
  {
    if ops != [] {
      var front, last := ops[..|ops| - 1], ops[|ops| - 1];
      BytesAddUp(f, front);
      StepConserves(Run(f, front), last);
    }
  }

  /**
   * The wire, followed by the backlog, followed by the rest of the file, is the concatenation of
   * all accepted payloads in call order, exactly when no nonempty file remainder was abandoned.
   */
  lemma {:induction false} Conservation(f: Flow, ops: seq<Op>)
    ensures Owed(Run(f, ops)) == Owed(f) + Accepted(f, ops) <==> Abandoned(f, ops) == 0
  {
    BytesAddUp(f, ops);
    if Abandoned(f, ops) == 0 {
      NothingLost(f, ops);
    }
  }

  lemma LosslessStep(f: Flow, op: Op)
    requires Lost(f, op) == 0
    ensures Owed(Apply(f, op)) == Owed(f) + Payload(f, op)
  {
    StepConserves(f, op);
    var due := Owed(f) + Payload(f, op);
    assert due[..|due|] == due;
  }

  lemma {:induction false} NothingLost(f: Flow, ops: seq<Op>)
    requires Abandoned(f, ops) == 0
    ensures Owed(Run(f, ops)) == Owed(f) + Accepted(f, ops)
  {
    if ops == [] {
      assert Owed(f) + [] == Owed(f);
    } else {
      var front, last := ops[..|ops| - 1], ops[|ops| - 1];
      NothingLost(f, front);
      var before := Run(f, front);
      LosslessStep(before, last);
      Assoc(Owed(f), Accepted(f, front), Payload(before, last));
    }
  }

  /** The wire never runs ahead of, or reorders, what has been accepted; and it only grows. */
  lemma {:induction false} WireIsPrefix(f: Flow, ops: seq<Op>)
    requires Abandoned(f, ops) == 0
    ensures Run(f, ops).wire <= Owed(f) + Accepted(f, ops)
    ensures f.wire <= Run(f, ops).wire
  {
    Conservation(f, ops);
    WireGrows(f, ops);
  }

  /** `a` is `b` with some bytes left out. */
  predicate Within(a: Bytes, b: Bytes)
    decreases |b|
  {
    a == [] ||
    (b != [] && ((a[|a| - 1] == b[|b| - 1] && Within(a[..|a| - 1], b[..|b| - 1])) || Within(a, b[..|b| - 1])))
  }

  lemma {:induction false} WithinAppend(a: Bytes, b: Bytes, c: Bytes)
    requires Within(a, b)
    ensures Within(a + c, b + c)
    decreases |c|
  {
    if c == [] {
      assert a + c == a && b + c == b;
    } else {
      var front := c[..|c| - 1];
      WithinAppend(a, b, front);
      assert (a + c)[..|a + c| - 1] == a + front && (b + c)[..|b + c| - 1] == b + front;
    }
  }

  lemma {:induction false} WithinFront(a: Bytes, b: Bytes)
    requires Within(a, b) && a != []
    ensures Within(a[..|a| - 1], b)
    decreases |b|
  {
    if Within(a, b[..|b| - 1]) {
      WithinFront(a, b[..|b| - 1]);
    }
  }

  lemma {:induction false} WithinPrefix(a: Bytes, k: nat, b: Bytes)
    requires Within(a, b) && k <= |a|
    ensures Within(a[..k], b)
    decreases |a|
  {
    if k == |a| {
      assert a[..k] == a;
    } else {
      WithinFront(a, b);
      WithinPrefix(a[..|a| - 1], k, b);
      assert a[..|a| - 1][..k] == a[..k];
    }
  }

  lemma {:induction false} WithinItself(a: Bytes)
    ensures Within(a, a)
  {
    if a != [] { WithinItself(a[..|a| - 1]); }
  }

  lemma {:induction false} OwedWithinAccepted(f: Flow, ops: seq<Op>)
    ensures Within(Owed(Run(f, ops)), Owed(f) + Accepted(f, ops))
  {
    if ops == [] {
      WithinItself(Owed(f));
      assert Owed(f) + [] == Owed(f);
    } else {
      var front, last := ops[..|ops| - 1], ops[|ops| - 1];
      var before := Run(f, front);
      var due := Owed(before) + Payload(before, last);
      OwedWithinAccepted(f, front);
      WithinAppend(Owed(before), Owed(f) + Accepted(f, front), Payload(before, last));
      Assoc(Owed(f), Accepted(f, front), Payload(before, last));
      StepConserves(before, last);
      WithinPrefix(due, |due| - Lost(before, last), Owed(f) + Accepted(f, ops));
    }
  }

  /** Over every run, whatever was abandoned: the wire holds accepted bytes only, none twice, in the order accepted. */
  lemma WireWithinAccepted(f: Flow, ops: seq<Op>)
    ensures Within(Run(f, ops).wire, Owed(f) + Accepted(f, ops))
  {
    var g := Run(f, ops);
    OwedWithinAccepted(f, ops);
    WithinPrefix(Owed(g), |g.wire|, Owed(f) + Accepted(f, ops));
    assert Owed(g)[..|g.wire|] == g.wire;
  }

  lemma {:induction false} WireGrows(f: Flow, ops: seq<Op>)
    ensures f.wire <= Run(f, ops).wire
    ensures !f.open ==> !Run(f, ops).open && f.wire == Run(f, ops).wire
  {
    if ops != [] {
      WireGrows(f, ops[..|ops| - 1]);
      WireGrowsStep(Run(f, ops[..|ops| - 1]), ops[|ops| - 1]);
    }
  }

  lemma WireGrowsStep(f: Flow, op: Op)
    ensures f.wire <= Apply(f, op).wire
    ensures !f.open ==> !Apply(f, op).open && f.wire == Apply(f, op).wire
  {
    if op.DoWrite? {
      WireGrowsOnWrite(f, op.outcome, op.fileOutcome);
    }
  }

  lemma WireGrowsOnWrite(f: Flow, o: IoOutcome, fo: IoOutcome)
    ensures f.wire <= OnWrite(f, o, fo).wire
    ensures !f.open ==> !OnWrite(f, o, fo).open && f.wire == OnWrite(f, o, fo).wire
  {
  }

  predicate AttemptsToSend(op: Op) {
    op.DoSend? || op.DoWrite? || op.DoSendFileWithHeader? || (op.DoSendFile? && op.size > 0)
  }

  /** The callbacks a step must invoke, judged by the states before and after it alone. */
  function Callbacks(f: Flow, op: Op, g: Flow): seq<Callback> {
    if f.open && !g.open then
      if op.DoForceClose? then [Closed] else [ErrorOccurred, Closed]
    else if !f.open then
      if !op.DoWrite? then [] else if f.Idle() then [WriteComplete] else [ErrorOccurred]
    else if AttemptsToSend(op) && g.Idle() then [WriteComplete]
    else if f.mark.Some? && |f.backlog| < f.mark.value <= |g.backlog| then [HighWaterMark]
    else []
  }

  /**
   * Write-complete is reported exactly when an attempt to send leaves nothing unsent, high-water
   * exactly when the backlog crosses the mark, an error exactly when the connection breaks.
   */
  lemma CallbacksExact(f: Flow, op: Op)
    ensures Apply(f, op).fired == f.fired + Callbacks(f, op, Apply(f, op))
    ensures WriteComplete in Callbacks(f, op, Apply(f, op)) ==> Apply(f, op).Idle()
  {
    assert f.fired + [] == f.fired;
    assert (f.fired + [ErrorOccurred]) + [Closed] == f.fired + [ErrorOccurred, Closed];
    match op
    case DoSend(msg, o) => SendCallbacks(f, msg, o);
    case DoSendFile(file, size, offset, o) => SendFileCallbacks(f, file, size, offset, o);
    case DoSendFileWithHeader(header, file, size, offset, o) => HeaderCallbacks(f, header, file, size, offset, o);
    case DoWrite(o, fo) => WriteCallbacks(f, o, fo);
    case DoForceClose =>
    case DoSetMark(_) =>
  }

  lemma SendCallbacks(f: Flow, msg: Bytes, o: IoOutcome)
    ensures var g := Send(f, msg, o); g.fired == f.fired + Callbacks(f, DoSend(msg, o), g)
  {
    assert f.fired + [] == f.fired;
    assert (f.fired + [ErrorOccurred]) + [Closed] == f.fired + [ErrorOccurred, Closed];
  }

  lemma SendFileCallbacks(f: Flow, file: FileRef, size: nat, offset: nat, o: IoOutcome)
    ensures var g := SendFile(f, file, size, offset, o);
      g.fired == f.fired + Callbacks(f, DoSendFile(file, size, offset, o), g)
  {
    assert f.fired + [] == f.fired;
    assert (f.fired + [ErrorOccurred]) + [Closed] == f.fired + [ErrorOccurred, Closed];
  }

  lemma HeaderCallbacks(f: Flow, header: Bytes, file: FileRef, size: nat, offset: nat, o: IoOutcome)
    ensures var g := SendFileWithHeader(f, header, file, size, offset, o);
      g.fired == f.fired + Callbacks(f, DoSendFileWithHeader(header, file, size, offset, o), g)
  {
    assert f.fired + [] == f.fired;
    assert (f.fired + [ErrorOccurred]) + [Closed] == f.fired + [ErrorOccurred, Closed];
    if size == 0 { SendCallbacks(f, header, o); }
  }

  lemma WriteCallbacks(f: Flow, o: IoOutcome, fo: IoOutcome)
    ensures var g := OnWrite(f, o, fo); g.fired == f.fired + Callbacks(f, DoWrite(o, fo), g)
  {
    assert f.fired + [] == f.fired;
    assert (f.fired + [ErrorOccurred]) + [Closed] == f.fired + [ErrorOccurred, Closed];
  }

  /** The event flushes the whole backlog, if there is any. */
  predicate Flushes(f: Flow, o: IoOutcome) {
    f.backlog == [] || (o.Accept? && o.limit >= |f.backlog|)
  }

  /** A send of `size` new bytes, or none, is refused by order or by the kernel. */
  predicate SendBreaks(f: Flow, o: IoOutcome) { f.file.Some? || o == Fail }

  /** Why an event breaks an open connection: said of the state before it and the kernel's answers alone. */
  predicate Breaks(f: Flow, op: Op) {
    match op
    case DoForceClose => true
    case DoSend(_, o) => SendBreaks(f, o)
    case DoSendFile(file, size, _, o) => size > 0 && (!file.Regular? || f.file.Some? || (f.backlog == [] && o == Fail))
    case DoSendFileWithHeader(_, file, size, _, o) => if size == 0 then SendBreaks(f, o) else !file.Regular? || f.file.Some?
    case DoWrite(o, fo) => (f.backlog != [] && o == Fail) || (f.file.Some? && Flushes(f, o) && fo == Fail)
    case DoSetMark(_) => false
  }

  /**
   * An event closes an open connection exactly when it is a force close, a send meeting a pending
   * file, a file argument that cannot be used, or a system call it makes fails; never otherwise.
   */
  lemma BreaksExactly(f: Flow, op: Op)
    requires f.open
    ensures !Apply(f, op).open <==> Breaks(f, op)
    ensures Breaks(f, op) && !op.DoForceClose? ==> Apply(f, op).fired == f.fired + [ErrorOccurred, Closed]
  {
    CallbacksExact(f, op);
  }

  /** Over runs: still open exactly when no event so far was one that breaks. */
  lemma {:induction false} OpenUnlessBroken(f: Flow, ops: seq<Op>)
    requires f.open
    ensures Run(f, ops).open <==> forall i {:trigger Breaks(Run(f, ops[..i]), ops[i])} ::
      0 <= i < |ops| ==> !Breaks(Run(f, ops[..i]), ops[i])
  {
    if ops != [] {
      var front, last := ops[..|ops| - 1], ops[|ops| - 1];
      OpenUnlessBroken(f, front);
      assert ops[..|front|] == front;
      forall i | 0 <= i < |front| ensures ops[..i] == front[..i] && ops[i] == front[i] {}
      if Run(f, front).open {
        BreaksExactly(Run(f, front), last);
        forall i | 0 <= i < |ops| ensures !Run(f, ops).open || !Breaks(Run(f, ops[..i]), ops[i]) {
          if i < |front| { assert !Breaks(Run(f, front[..i]), front[i]); }
        }
        assert Breaks(Run(f, front), last) ==> Breaks(Run(f, ops[..|front|]), ops[|front|]);
      } else {
        var i :| 0 <= i < |front| && Breaks(Run(f, front[..i]), front[i]);
        assert Breaks(Run(f, ops[..i]), ops[i]);
        WireGrowsStep(Run(f, front), last);
      }
    }
  }

  function Granted(o: IoOutcome, size: nat): nat { if o.Accept? then Min(o.limit, size) else 0 }

  /** The bytes the kernel takes in this event: said of the state before it and the kernel's answers alone. */
  function Grant(f: Flow, op: Op): nat {
    if !f.open then 0 else
      match op
      case DoSend(msg, o) => if f.file.Some? then 0 else Granted(o, |f.backlog| + |msg|)
      case DoSendFile(file, size, offset, o) =>
        if AcceptsFile(f, op) && f.backlog == [] then Granted(o, |Clip(file.content, offset, size)|) else 0
      case DoSendFileWithHeader(header, _, size, _, o) =>
        if size > 0 || f.file.Some? then 0 else Granted(o, |f.backlog| + |header|)
      case DoWrite(o, fo) =>
        Granted(o, |f.backlog|) + if f.file.Some? && Flushes(f, o) then Granted(fo, |f.file.value.bytes|) else 0
      case _ => 0
  }

  /** Each event puts on the wire just as many bytes as the kernel takes of what it is offered. */
  lemma WireGrowsExactly(f: Flow, op: Op)
    ensures |Apply(f, op).wire| == |f.wire| + Grant(f, op)
  {
    match op
    case DoSend(msg, o) => SendTakesGrant(f, msg, o);
    case DoSendFileWithHeader(header, _, size, _, o) =>
      if size == 0 { SendTakesGrant(f, header, o); }
    case DoWrite(o, fo) => WriteTakesGrant(f, o, fo);
    case _ =>
  }

  lemma SendTakesGrant(f: Flow, msg: Bytes, o: IoOutcome)
    ensures |Send(f, msg, o).wire| == |f.wire| + Grant(f, DoSend(msg, o))
  {
  }

  lemma WriteTakesGrant(f: Flow, o: IoOutcome, fo: IoOutcome)
    ensures |OnWrite(f, o, fo).wire| == |f.wire| + Grant(f, DoWrite(o, fo))
  {
  }

  /** The range of a file that a send means. */
  lemma ClipIsRange(content: Bytes, offset: nat, size: nat)
    ensures offset + size <= |content| ==> Clip(content, offset, size) == content[offset..offset + size]
    ensures offset <= |content| < offset + size ==> Clip(content, offset, size) == content[offset..]
    ensures |content| < offset ==> Clip(content, offset, size) == []
  {
  }

  /** Every writable event moves the measure down by at least what the kernel took, and never up. */
  lemma DrainMeasure(f: Flow, o: IoOutcome, fo: IoOutcome)
    ensures
      var g := OnWrite(f, o, fo);
      g.Remaining() + |g.wire| <= f.Remaining() + |f.wire|
    ensures OnWrite(f, o, fo).wire != f.wire ==> OnWrite(f, o, fo).Remaining() < f.Remaining()
  {
    if f.backlog != [] && f.Try(o, |f.backlog|).Moved? {
      var n := f.Try(o, |f.backlog|).n;
      if n == 0 { assert f.wire + f.backlog[..0] == f.wire; }
    }
    WireGrowsOnWrite(f, o, fo);
  }

  /** A cooperative kernel: every writable event takes something of whatever it is offered. */
  predicate Takes(op: Op) {
    op.DoWrite? && op.outcome.Accept? && op.outcome.limit > 0 && op.fileOutcome.Accept? && op.fileOutcome.limit > 0
  }

  lemma TakingMakesProgress(f: Flow, op: Op)
    requires f.open && Takes(op)
    requires f.file.Some? ==> |f.file.value.bytes| + f.file.value.missing > 0
    ensures
      var g := Apply(f, op);
      && g.open && (g.Idle() || g.Remaining() < f.Remaining())
      && (g.file.Some? ==> |g.file.value.bytes| + g.file.value.missing > 0)
  {
  }

  lemma TakingLosesNothing(f: Flow, op: Op)
    requires f.open && Takes(op)
    ensures Lost(f, op) == 0 && Payload(f, op) == []
  {
  }

  /**
   * With such a kernel the connection drains, and stays open, within `Remaining` writable events;
   * then every byte it held is on the wire, and whatever a file lacked of its promise is not.
   */
  lemma {:induction false} Drains(f: Flow, ops: seq<Op>)
    requires f.open && (f.file.Some? ==> |f.file.value.bytes| + f.file.value.missing > 0)
    requires forall i :: 0 <= i < |ops| ==> Takes(ops[i])
    ensures
      var g := Run(f, ops);
      && g.open && (g.Idle() || g.Remaining() + |ops| <= f.Remaining())
      && (g.file.Some? ==> |g.file.value.bytes| + g.file.value.missing > 0)
    ensures Owed(Run(f, ops)) == Owed(f)
    ensures |ops| > f.Remaining() ==> Run(f, ops).Idle() && Run(f, ops).wire == f.wire + f.Unsent()
  {
    if ops != [] {
      var front, last := ops[..|ops| - 1], ops[|ops| - 1];
      Drains(f, front);
      TakingMakesProgress(Run(f, front), last);
      TakingLosesNothing(Run(f, front), last);
      LosslessStep(Run(f, front), last);
    }
  }

  /** The bytes a step lets the caller count on: a file for its whole size, whether it has the bytes or not. */
  function Promise(f: Flow, op: Op): nat {
    if AcceptsFile(f, op) then (if op.DoSendFileWithHeader? then |op.header| else 0) + op.size else |Payload(f, op)|
  }

  /** How far a file falls short of what is promised of it. */
  function Lacking(f: Flow, op: Op): nat {
    if AcceptsFile(f, op) then TailOf(op.file.content, op.offset, op.size).missing else 0
  }

  function MissingFrom(f: Flow): nat { if f.file.Some? then f.file.value.missing else 0 }

  /** What a step drops of its promises, without an error: all that was still promised of the file. */
  function Dropped(f: Flow, op: Op): nat {
    if Abandons(f, op) then |InHand(f, op).bytes| + InHand(f, op).missing else 0
  }

  lemma MissingStep(f: Flow, op: Op)
    ensures MissingFrom(Apply(f, op)) + Dropped(f, op) == MissingFrom(f) + Lacking(f, op) + Lost(f, op)
  {
  }

  lemma PromiseIsPayload(f: Flow, op: Op)
    ensures Promise(f, op) == |Payload(f, op)| + Lacking(f, op)
  {
  }

  lemma {:induction false} MissingAddsUp(f: Flow, ops: seq<Op>)
    ensures MissingFrom(Run(f, ops)) + Total(Dropped, f, ops) == MissingFrom(f) + Total(Lacking, f, ops) + Total(Lost, f, ops)
  {
    if ops != [] {
      MissingAddsUp(f, ops[..|ops| - 1]);
      MissingStep(Run(f, ops[..|ops| - 1]), ops[|ops| - 1]);
    }
  }

  lemma {:induction false} PromisedAndAccepted(f: Flow, ops: seq<Op>)
    ensures Total(Promise, f, ops) == |Accepted(f, ops)| + Total(Lacking, f, ops)
  {
    if ops != [] {
      PromisedAndAccepted(f, ops[..|ops| - 1]);
      PromiseIsPayload(Run(f, ops[..|ops| - 1]), ops[|ops| - 1]);
    }
  }

  /** Sent, still promised and silently dropped bytes add up to the promised ones, over every run. */
  lemma PromisesAddUp(f: Flow, ops: seq<Op>)
    ensures |Run(f, ops).wire| + Run(f, ops).Remaining() + Total(Dropped, f, ops)
         == |f.wire| + f.Remaining() + Total(Promise, f, ops)
  {
    BytesAddUp(f, ops);
    MissingAddsUp(f, ops);
    PromisedAndAccepted(f, ops);
  }

  /** Every file taken on has the bytes promised of it; a caller can see that before the call. */
  ghost predicate FilesReach(f: Flow, ops: seq<Op>) {
    forall i :: 0 <= i < |ops| && AcceptsFile(Run(f, ops[..i]), ops[i]) ==>
      ops[i].offset + ops[i].size <= |ops[i].file.content|
  }

  lemma LackingIsShort(f: Flow, op: Op)
    requires AcceptsFile(f, op)
    ensures Lacking(f, op) == 0 <==> op.offset + op.size <= |op.file.content|
  {
  }

  lemma {:induction false} LackingMeansShort(f: Flow, ops: seq<Op>)
    ensures Total(Lacking, f, ops) == 0 <==> FilesReach(f, ops)
  {
    if ops != [] {
      var front, last := ops[..|ops| - 1], ops[|ops| - 1];
      LackingMeansShort(f, front);
      assert forall i :: 0 <= i < |front| ==> front[..i] == ops[..i];
      assert ops[..|front|] == front;
      if AcceptsFile(Run(f, front), last) { LackingIsShort(Run(f, front), last); }
      if FilesReach(f, ops) {
        forall i | 0 <= i < |front| && AcceptsFile(Run(f, front[..i]), front[i])
          ensures front[i].offset + front[i].size <= |front[i].file.content|
        {
          assert front[i] == ops[i] && front[..i] == ops[..i];
        }
      }
      if FilesReach(f, front) && Lacking(Run(f, front), last) == 0 {
        forall i | 0 <= i < |ops| && AcceptsFile(Run(f, ops[..i]), ops[i])
          ensures ops[i].offset + ops[i].size <= |ops[i].file.content|
        {
          if i < |front| { assert front[i] == ops[i] && front[..i] == ops[..i]; }
        }
      }
    }
  }

  /**
   * A run that ends open with nothing left to send has sent as many bytes as were promised if and
   * only if every file it took on reaches as far as promised and no file lost bytes it had.
   */
  lemma DeliveredAsPromised(f: Flow, ops: seq<Op>)
    requires Run(f, ops).open && Run(f, ops).Idle()
    ensures |Run(f, ops).wire| == |f.wire| + f.Remaining() + Total(Promise, f, ops)
       <==> MissingFrom(f) == 0 && FilesReach(f, ops) && Abandoned(f, ops) == 0
  {
    PromisesAddUp(f, ops);
    MissingAddsUp(f, ops);
    LackingMeansShort(f, ops);
  }

  /** A connection nothing has happened to. */
  function FreshFlow(): Flow { Flow([], [], None, true, None, []) }

  lemma RunOfOne(f: Flow, op: Op)
    ensures Run(f, [op]) == Apply(f, op) && forall m: (Flow, Op) -> nat :: Total(m, f, [op]) == m(f, op)
  {
    assert [op][..0] == [];
  }

  lemma RunOfTwo(f: Flow, a: Op, b: Op)
    ensures Run(f, [a, b]) == Apply(Apply(f, a), b)
    ensures Total(Lost, f, [a, b]) == Lost(f, a) + Lost(Apply(f, a), b)
  {
    assert [a, b][..1] == [a];
    RunOfOne(f, a);
  }

  /** A file shorter than promised: a hundred bytes announced, none sent, completion reported, no error. */
  lemma ShortFileIsSilent(ops: seq<Op>)
    requires ops == [DoSendFile(Regular([]), 100, 0, Accept(100))]
    ensures
      var g := Run(FreshFlow(), ops);
      && g.open && g.Idle() && g.wire == [] && g.fired == [WriteComplete]
      && Total(Promise, FreshFlow(), ops) == 100 && !FilesReach(FreshFlow(), ops) && Abandoned(FreshFlow(), ops) == 0
  {
    RunOfOne(FreshFlow(), ops[0]);
    LackingMeansShort(FreshFlow(), ops);
  }

  /** A `sendfile` that moves nothing although bytes are left: the rest is gone, completion reported, no error. */
  lemma AbandonedRestIsSilent(ops: seq<Op>)
    requires ops == [DoSendFile(Regular([1, 2]), 2, 0, Accept(1)), DoWrite(Accept(0), Accept(0))]
    ensures
      var g := Run(FreshFlow(), ops);
      && g.open && g.Idle() && g.wire == [1] && g.fired == [WriteComplete] && Abandoned(FreshFlow(), ops) == 1
  {
    RunOfTwo(FreshFlow(), ops[0], ops[1]);
  }

  /** The real connection, driven by any sequence of events, goes where the simple flow goes. */
  method Replay(c: TcpConnection, ops: seq<Op>)
    requires c.Valid()
    modifies c, c.socket, c.writeBuffer, c.writeBuffer.data
    ensures c.Valid() && c.View() == Run(old(c.View()), ops)
    ensures Abandoned(old(c.View()), ops) == 0 ==>
      c.socket.wire + c.View().Unsent() == Owed(old(c.View())) + Accepted(old(c.View()), ops)
    ensures c.isWriting <==> !c.isClosed && !c.View().Idle()
  {
    ghost var f := c.View();
    for n := 0 to |ops|
      invariant c.Valid() && (c.writeBuffer.data == old(c.writeBuffer.data) || fresh(c.writeBuffer.data))
      invariant c.View() == Run(f, ops[..n])
    {
      Perform(c, ops[n]);
      assert ops[..n + 1][..n] == ops[..n];
    }
    assert ops[..|ops|] == ops;
    Conservation(f, ops);
  }

  method Perform(c: TcpConnection, op: Op)
    requires c.Valid()
    modifies c, c.socket, c.writeBuffer, c.writeBuffer.data
    ensures c.Valid() && (c.writeBuffer.data == old(c.writeBuffer.data) || fresh(c.writeBuffer.data))
    ensures c.View() == Apply(old(c.View()), op)
  {
    match op {
      case DoSend(msg, o) => c.SendInLoop(msg, o);
      case DoSendFile(file, size, offset, o) => c.SendFileInLoop(file, size, offset, o);
      case DoSendFileWithHeader(header, file, size, offset, o) =>
        c.SendFileWithHeaderInLoop(header, file, size, offset, o);
      case DoWrite(o, fo) => c.OnWrite(o, fo);
      case DoForceClose => c.ForceCloseInLoop();
      case DoSetMark(mark) => c.SetHighWaterMarkCallback(mark);
    }
  }
}
