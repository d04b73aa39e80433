/** The connection's three-way send machine over a real buffer, refining the simple flow. */
module TcpConnections {
  import opened Common
  import opened Sockets
  import opened Buffers
  import opened SendFlow

  datatype PendingFile = PendingFile(content: Bytes, offset: nat, remaining: nat)

  const NO_PENDING_FILE := PendingFile([], 0, 0)

  class TcpConnection {
    const socket: Socket
    const writeBuffer: Buffer
    var isClosed: bool
    var hasPendingFile: bool
    var pendingFile: PendingFile
    var isWriting: bool             // write interest of the channel
    var highWaterMark: Option<nat>  // set together with its callback
    var fired: seq<Callback>        // the callbacks invoked so far

    ghost predicate Valid()
      reads this, socket, writeBuffer
    {
      && writeBuffer.Valid()
      && socket.finSent == isClosed
      && (hasPendingFile <==> pendingFile.remaining > 0)
      && (isWriting <==> !isClosed && (writeBuffer.readIndex < writeBuffer.writeIndex || hasPendingFile))
    }

    ghost function View(): Flow
      reads this, socket, writeBuffer, writeBuffer.data
      requires writeBuffer.Valid()
    {
      var p := pendingFile;
      Flow(socket.wire, writeBuffer.Contents(),
           if hasPendingFile then Some(TailOf(p.content, p.offset, p.remaining)) else None,
           !isClosed, highWaterMark, fired)
    }

    constructor ()
      ensures Valid() && fresh(socket) && fresh(writeBuffer) && fresh(writeBuffer.data)
      ensures View() == Flow([], [], None, true, None, [])
    {
      socket := new Socket();
      writeBuffer := new Buffer();
      isClosed, hasPendingFile, pendingFile, isWriting := false, false, NO_PENDING_FILE, false;
      highWaterMark, fired := None, [];
    }

    method SetHighWaterMarkCallback(mark: nat)
      requires Valid()
      modifies this`highWaterMark
      ensures Valid() && View() == old(View()).(mark := Some(mark))
    {
      highWaterMark := Some(mark);
    }

    method HandleCallback(c: Callback)
      modifies this`fired
      ensures fired == old(fired) + [c]
    {
      fired := fired + [c];
    }

    method CloseConnection()
      requires writeBuffer.Valid() && socket.finSent == isClosed
      modifies this`isClosed, this`isWriting, this`fired, socket`finSent
      ensures isClosed && socket.finSent
      ensures isWriting == if old(isClosed) then old(isWriting) else false
      ensures View() == old(View()).Close()
    {
      if isClosed {
        return;
      }
      isClosed := true;
      socket.ShutdownWrite();
      isWriting := false;
      HandleCallback(Closed);
    }

    method ForceCloseInLoop()
      requires Valid()
      modifies this`isClosed, this`isWriting, this`fired, socket`finSent
      ensures Valid() && View() == old(View()).Close()
    {
      CloseConnection();
    }

    method FailConnection()
      requires writeBuffer.Valid() && socket.finSent == isClosed
      modifies this`isClosed, this`isWriting, this`fired, socket`finSent
      ensures isClosed && socket.finSent
      ensures isWriting == if old(isClosed) then old(isWriting) else false
      ensures View() == old(View()).Abort()
    {
      HandleCallback(ErrorOccurred);
      CloseConnection();
    }

    method SendInLoop(msg: Bytes, outcome: IoOutcome)
      requires Valid()
      modifies this, socket, writeBuffer, writeBuffer.data
      ensures Valid() && (writeBuffer.data == old(writeBuffer.data) || fresh(writeBuffer.data))
      ensures View() == Send(old(View()), msg, outcome)
    {
      if isClosed {
        return;
      }
      if hasPendingFile {
        FailConnection();
        return;
      }
      var oldLen := writeBuffer.ReadableBytes();
      var writtenLen, finished := 0, false;
      if oldLen == 0 && !isWriting {
        writtenLen, finished := WriteDirect(msg, outcome);
      } else if oldLen > 0 {
        writtenLen, finished := WriteGathered(msg, outcome);
      }
      if finished {
        return;
      }
      BufferRest(old(View()), msg, writtenLen, oldLen, outcome);
    }

    /** What the kernel did not take of the message joins the backlog. */
    method BufferRest(ghost before: Flow, msg: Bytes, writtenLen: nat, oldLen: nat, ghost outcome: IoOutcome)
      requires writeBuffer.Valid() && writtenLen <= |msg| && PartlySent(before, msg, writtenLen, outcome)
      requires before.open && before.file.None? && oldLen == |before.backlog| && !hasPendingFile && pendingFile.remaining == 0
      modifies this`isWriting, this`fired, writeBuffer, writeBuffer.data
      ensures Valid() && (writeBuffer.data == old(writeBuffer.data) || fresh(writeBuffer.data))
      ensures View() == Send(before, msg, outcome)
    {
      if writtenLen < |msg| {
        writeBuffer.WriteToBuffer(msg[writtenLen..]);
      }
      isWriting := true;
      NoteHighWaterMark(oldLen);
    }

    /**
     * After one system call that left something unsent: the kernel took a prefix of backlog and
     * message, and `msg[writtenLen..]` is what the buffer does not hold yet.
     */
    ghost predicate PartlySent(before: Flow, msg: Bytes, writtenLen: nat, outcome: IoOutcome)
      reads this, socket, writeBuffer, writeBuffer.data
      requires writeBuffer.Valid() && writtenLen <= |msg|
    {
      var queue := before.backlog + msg;
      var result := ClampOutcome(outcome, |queue|);
      && !isClosed && !socket.finSent
      && !result.Error? && result.Moved() < |queue|
      && writeBuffer.Contents() + msg[writtenLen..] == queue[result.Moved()..]
      && View() == before.(wire := before.wire + queue[..result.Moved()], backlog := writeBuffer.Contents())
    }

    /** Nothing is queued: write the message itself. `finished` when the call is over. */
    method WriteDirect(msg: Bytes, outcome: IoOutcome) returns (writtenLen: nat, finished: bool)
      requires Valid() && !isClosed && !hasPendingFile && writeBuffer.Contents() == []
      modifies this`isClosed, this`isWriting, this`fired, socket
      ensures writeBuffer.Valid() && writtenLen <= |msg|
      ensures finished ==> Valid() && View() == Send(old(View()), msg, outcome)
      ensures !finished ==> PartlySent(old(View()), msg, writtenLen, outcome)
    {
      writtenLen, finished := 0, true;
      ghost var queue := writeBuffer.Contents() + msg;
      assert queue == msg;
      var result := socket.Write(msg, outcome);
      if result.Error? {
        assert msg[..0] == [];
        FailConnection();
        return;
      }
      writtenLen := result.Moved();
      if writtenLen == |msg| {
        HandleCallback(WriteComplete);
        return;
      }
      finished := false;
    }

    /** Gathers the backlog and the message into one system call. */
    method WriteGathered(msg: Bytes, outcome: IoOutcome) returns (writtenLen: nat, finished: bool)
      requires Valid() && !isClosed && !hasPendingFile && writeBuffer.Contents() != []
      modifies this`isClosed, this`isWriting, this`fired, socket, writeBuffer`readIndex, writeBuffer`writeIndex
      ensures writeBuffer.Valid() && writtenLen <= |msg|
      ensures finished ==> Valid() && View() == Send(old(View()), msg, outcome)
      ensures !finished ==> PartlySent(old(View()), msg, writtenLen, outcome)
    {
      writtenLen, finished := 0, true;
      var backlog := writeBuffer.data[writeBuffer.readIndex..writeBuffer.writeIndex];
      ghost var queue := backlog + msg;
      var result := socket.WriteV(backlog, msg, outcome);
      if result.Error? {
        assert queue[..0] == [];
        FailConnection();
        return;
      }
      if result.Moved? {
        writtenLen := ConsumeGathered(msg, result.n);
        if writtenLen == |msg| && result.n == |backlog| + |msg| {
          isWriting := false;
          HandleCallback(WriteComplete);
          return;
        }
      }
      finished := false;
    }

    /** Of the bytes taken, the old ones leave the buffer first; the rest counts against the message. */
    method ConsumeGathered(msg: Bytes, bytesWritten: nat) returns (writtenLen: nat)
      requires writeBuffer.Valid() && bytesWritten <= |writeBuffer.Contents()| + |msg|
      modifies writeBuffer`readIndex, writeBuffer`writeIndex
      ensures writeBuffer.Valid() && writtenLen <= |msg|
      ensures writeBuffer.Contents() + msg[writtenLen..] == (old(writeBuffer.Contents()) + msg)[bytesWritten..]
      ensures bytesWritten == |old(writeBuffer.Contents())| + |msg| ==> writtenLen == |msg| && writeBuffer.Contents() == []
    {
      ghost var backlog := writeBuffer.Contents();
      writtenLen := 0;
      var oldLen := writeBuffer.ReadableBytes();
      if bytesWritten >= oldLen {
        writeBuffer.AdvanceReadIndex(oldLen);
        writtenLen := bytesWritten - oldLen;
        assert (backlog + msg)[bytesWritten..] == msg[writtenLen..];
      } else {
        writeBuffer.AdvanceReadIndex(bytesWritten);
        DropInside(backlog, msg, bytesWritten);
      }
    }

    method NoteHighWaterMark(oldLen: nat)
      requires writeBuffer.Valid()
      modifies this`fired
      ensures View() == old(View()).NoteMark(oldLen)
    {
      var newLen := writeBuffer.ReadableBytes();
      if highWaterMark.Some? && oldLen < highWaterMark.value && newLen >= highWaterMark.value {
        HandleCallback(HighWaterMark);
      }
    }

    method SendFileInLoop(file: FileRef, size: nat, offset: nat, outcome: IoOutcome)
      requires Valid()
      modifies this, socket
      ensures Valid()
      ensures View() == SendFile(old(View()), file, size, offset, outcome)
    {
      if isClosed || size == 0 {
        return;
      }
      if file.NoFile? || file.InvalidFd? {
        FailConnection();
        return;
      }
      if file.NotRegular? {
        FailConnection();
        return;
      }
      if hasPendingFile {
        FailConnection();
        return;
      }
      pendingFile := PendingFile(file.content, offset, size);
      hasPendingFile := true;
      if writeBuffer.ReadableBytes() > 0 || isWriting {
        isWriting := true;
        return;
      }
      SendPendingFileInLoop(outcome);
      if !hasPendingFile {
        HandleCallback(WriteComplete);
      }
    }

    method SendFileWithHeaderInLoop(header: Bytes, file: FileRef, size: nat, offset: nat, outcome: IoOutcome)
      requires Valid()
      modifies this, socket, writeBuffer, writeBuffer.data
      ensures Valid() && (writeBuffer.data == old(writeBuffer.data) || fresh(writeBuffer.data))
      ensures View() == SendFileWithHeader(old(View()), header, file, size, offset, outcome)
    {
      if isClosed {
        return;
      }
      if size == 0 {
        SendInLoop(header, outcome);
        return;
      }
      if !file.Regular? {
        FailConnection();
        return;
      }
      if hasPendingFile {
        FailConnection();
        return;
      }
      AttachBehind(header, file.content, size, offset);
    }

    /** Header behind the backlog, file behind the header; the writable event does the rest. */
    method AttachBehind(header: Bytes, content: Bytes, size: nat, offset: nat)
      requires Valid() && !isClosed && !hasPendingFile && size > 0
      modifies this`pendingFile, this`hasPendingFile, this`isWriting, this`fired, writeBuffer, writeBuffer.data
      ensures Valid() && (writeBuffer.data == old(writeBuffer.data) || fresh(writeBuffer.data))
      ensures
        var f := old(View());
        View() == f.(backlog := f.backlog + header, file := Some(TailOf(content, offset, size))).NoteMark(|f.backlog|)
    {
      var oldLen := writeBuffer.ReadableBytes();
      writeBuffer.WriteToBuffer(header);
      pendingFile := PendingFile(content, offset, size);
      hasPendingFile := true;
      isWriting := true;
      NoteHighWaterMark(oldLen);
    }

    /** Leaves write interest on exactly when the file is still pending on an open connection. */
    method SendPendingFileInLoop(outcome: IoOutcome)
      requires writeBuffer.Valid() && writeBuffer.ReadableBytes() == 0
      requires socket.finSent == isClosed && hasPendingFile && pendingFile.remaining > 0
      modifies this, socket
      ensures socket.finSent == isClosed && (hasPendingFile <==> pendingFile.remaining > 0)
      ensures old(isClosed) ==> isWriting == old(isWriting)
      ensures hasPendingFile && !old(isClosed) ==> (isWriting <==> !isClosed)
      ensures !hasPendingFile ==> isWriting == old(isWriting)
      ensures View() == SendPendingFile(old(View()), outcome)
    {
      var p := pendingFile;
      var rest := Clip(p.content, p.offset, p.remaining);
      var result := socket.Write(rest, outcome);
      if result.Again? {
        isWriting := true;
        return;
      }
      if result.Error? {
        FailConnection();
        return;
      }
      if result.n == 0 {
        pendingFile, hasPendingFile := NO_PENDING_FILE, false;
        return;
      }
      var sent := result.n;
      assert Clip(p.content, p.offset + sent, p.remaining - sent) == rest[sent..];
      pendingFile := pendingFile.(offset := p.offset + sent, remaining := p.remaining - sent);
      if pendingFile.remaining == 0 {
        pendingFile, hasPendingFile := NO_PENDING_FILE, false;
        return;
      }
      isWriting := true;
    }

    /** Flushes what it can of a nonempty backlog; `finished` when the backlog is not drained. */
    method FlushBacklog(outcome: IoOutcome) returns (finished: bool)
      requires Valid() && writeBuffer.Contents() != []
      modifies this`isClosed, this`isWriting, this`fired, socket, writeBuffer`readIndex, writeBuffer`writeIndex
      ensures writeBuffer.Valid() && socket.finSent == isClosed
      ensures finished ==> Valid() && View() == SendFlow.OnWrite(old(View()), outcome, WouldBlock)
      ensures finished ==> old(View()).Try(outcome, |old(View()).backlog|) != Moved(|old(View()).backlog|)
      ensures !finished ==> old(View()).Try(outcome, |old(View()).backlog|) == Moved(|old(View()).backlog|)
      ensures !finished ==> isWriting == old(isWriting) && (hasPendingFile <==> pendingFile.remaining > 0)
      ensures !finished ==> View() == old(View()).(wire := old(View()).wire + old(View()).backlog, backlog := [])
    {
      ghost var wire, backlog := socket.wire, writeBuffer.Contents();
      var result := writeBuffer.WriteToFd(socket, outcome);
      MoveSplits(wire, backlog, socket.wire, writeBuffer.Contents());
      finished := true;
      if result.Again? {
        assert backlog[0..] == backlog && wire + backlog[..0] == wire;
        return;
      }
      if result.Error? {
        assert backlog[0..] == backlog && wire + backlog[..0] == wire;
        FailConnection();
        return;
      }
      if writeBuffer.ReadableBytes() > 0 {
        return;
      }
      assert backlog[..result.n] == backlog;
      finished := false;
    }

    method OnWrite(outcome: IoOutcome, fileOutcome: IoOutcome)
      requires Valid()
      modifies this, socket, writeBuffer`readIndex, writeBuffer`writeIndex
      ensures Valid()
      ensures View() == SendFlow.OnWrite(old(View()), outcome, fileOutcome)
    {
      if writeBuffer.ReadableBytes() > 0 {
        var finished := FlushBacklog(outcome);
        if finished {
          return;
        }
        assert old(View()).backlog[|old(View()).backlog|..] == [];
        assert old(View()).backlog[..|old(View()).backlog|] == old(View()).backlog;
      }
      FlushFileAndComplete(fileOutcome);
    }

    /** The part of `on_write` behind the backlog. */
    method FlushFileAndComplete(outcome: IoOutcome)
      requires writeBuffer.Valid() && writeBuffer.ReadableBytes() == 0
      requires socket.finSent == isClosed && (hasPendingFile <==> pendingFile.remaining > 0)
      requires isClosed ==> !isWriting
      modifies this, socket
      ensures Valid()
      ensures View() == FlushFile(old(View()), outcome)
    {
      if hasPendingFile {
        SendPendingFileInLoop(outcome);
        if hasPendingFile {
          return;
        }
      }
      isWriting := false;
      HandleCallback(WriteComplete);
    }
  }
}
