/**
 * The simple form of the send path: one queue of bytes, of which the tail may still live in a
 * file. Sending appends to the queue, and the kernel takes a prefix of it.
 */
module SendFlow {
  import opened Common
  import opened Sockets

  /** The file argument of a send, as far as the checks of the send path can see it. */
  datatype FileRef = NoFile | InvalidFd | NotRegular | Regular(content: Bytes)

  datatype Callback = WriteComplete | HighWaterMark | ErrorOccurred | Closed

  /** What is left of a pending file: the bytes it still has, and how many it lacks of the promised size. */
  datatype FileTail = FileTail(bytes: Bytes, missing: nat)

  datatype Flow = Flow(
    wire: Bytes,
    backlog: Bytes,
    file: Option<FileTail>,
    open: bool,
    mark: Option<nat>,
    fired: seq<Callback>)
  {
    function Unsent(): Bytes {
      if file.Some? then backlog + file.value.bytes else backlog
    }

    predicate Idle() { backlog == [] && file.None? }

    /** Backlog plus file remainder. */
    function Remaining(): nat {
      |backlog| + if file.Some? then |file.value.bytes| + file.value.missing else 0
    }

    function Fire(c: Callback): Flow { this.(fired := fired + [c]) }

    function Close(): Flow {
      if open then this.(open := false).Fire(Closed) else this
    }

    function Abort(): Flow { Fire(ErrorOccurred).Close() }

    function Try(outcome: IoOutcome, size: nat): IoResult {
      if open then ClampOutcome(outcome, size) else Error
    }

    /** The backlog grew from `before` bytes across the high-water mark. */
    function NoteMark(before: nat): Flow {
      if mark.Some? && before < mark.value <= |backlog| then Fire(HighWaterMark) else this
    }
  }

  /** The part of `content[offset..offset + size]` that exists. */
  function Clip(content: Bytes, offset: nat, size: nat): Bytes {
    content[Min(offset, |content|)..Min(offset + size, |content|)]
  }

  function TailOf(content: Bytes, offset: nat, size: nat): (t: FileTail)
    ensures |t.bytes| + t.missing == size
  {
    var clip := Clip(content, offset, size);
    FileTail(clip, size - |clip|)
  }

  /** Append, then let the kernel take a prefix of everything unsent. */
  function Send(f: Flow, msg: Bytes, outcome: IoOutcome): Flow {
    if !f.open then f
    else if f.file.Some? then f.Abort()
    else
      var queue := f.backlog + msg;
      match f.Try(outcome, |queue|)
      case Error => f.Abort()
      case result =>
        var m := result.Moved();
        var g := f.(wire := f.wire + queue[..m], backlog := queue[m..]);
        if g.backlog == [] then g.Fire(WriteComplete) else g.NoteMark(|f.backlog|)
  }

  /** One `sendfile` of the pending file; moving nothing abandons it. */
  function SendPendingFile(f: Flow, outcome: IoOutcome): Flow
    requires f.file.Some? && f.backlog == []
  {
    var tail := f.file.value;
    match f.Try(outcome, |tail.bytes|)
    case Error => f.Abort()
    case Again => f
    case Moved(n) =>
      var rest := FileTail(tail.bytes[n..], tail.missing);
      var done := n == 0 || |rest.bytes| + rest.missing == 0;
      f.(wire := f.wire + tail.bytes[..n], file := if done then None else Some(rest))
  }

  function SendFile(f: Flow, file: FileRef, size: nat, offset: nat, outcome: IoOutcome): Flow {
    if !f.open || size == 0 then f
    else if !file.Regular? || f.file.Some? then f.Abort()
    else
      var g := f.(file := Some(TailOf(file.content, offset, size)));
      if f.backlog != [] then g else
        var h := SendPendingFile(g, outcome);
        if h.file.None? then h.Fire(WriteComplete) else h
  }

  function SendFileWithHeader(
    f: Flow, header: Bytes, file: FileRef, size: nat, offset: nat, outcome: IoOutcome): Flow
  {
    if !f.open then f
    else if size == 0 then Send(f, header, outcome)
    else if !file.Regular? || f.file.Some? then f.Abort()
    else
      f.(backlog := f.backlog + header, file := Some(TailOf(file.content, offset, size)))
       .NoteMark(|f.backlog|)
  }

  /** The socket became writable: flush the backlog, then the file, then report completion. */
  function OnWrite(f: Flow, outcome: IoOutcome, fileOutcome: IoOutcome): Flow {
    if f.backlog != [] then
      match f.Try(outcome, |f.backlog|)
      case Error => f.Abort()
      case Again => f
      case Moved(n) =>
        var g := f.(wire := f.wire + f.backlog[..n], backlog := f.backlog[n..]);
        if g.backlog != [] then g else FlushFile(g, fileOutcome)
    else
      FlushFile(f, fileOutcome)
  }

  function FlushFile(f: Flow, outcome: IoOutcome): Flow
    requires f.backlog == []
  {
    var g := if f.file.Some? then SendPendingFile(f, outcome) else f;
    if g.file.Some? then g else g.Fire(WriteComplete)
  }
}
