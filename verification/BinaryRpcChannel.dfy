/**
 * The channel's own code, section by section. Between any two sections the other threads take as
 * many steps as they like, so every run of this code is a run of the protocol.
 */
module BinaryRpcChannels {
  import opened Common
  import opened BinaryRpcCodec
  import opened RpcFraming
  import opened ChannelProtocol
  import opened ChannelSafety
  import opened Paths

  datatype Actor = CallerThread(id: nat) | ReceiverThread | DestructorThread | Nobody

  /** The thread a step belongs to; a call that begins has no thread yet. */
  function ActorOf(step: Step): Actor {
    if Caller(step).Some? then CallerThread(Caller(step).value)
    else if step.Begin? then Nobody
    else if OfDestructor(step) then DestructorThread
    else ReceiverThread
  }

  /** What the other threads leave alone while `me` is between two of its sections. */
  predicate KeepsMine(s: State, t: State, me: Actor) {
    && |s.calls| <= |t.calls| && (t.running ==> s.running)
    && (match me
        case CallerThread(id) => id < |s.calls| ==>
          t.calls[id].pc == s.calls[id].pc && t.calls[id].request == s.calls[id].request && t.calls[id].frame == s.calls[id].frame
        case ReceiverThread => t.receiver == s.receiver && t.readBuf == s.readBuf && t.packets == s.packets && t.received == s.received
        case DestructorThread => t.destructor == s.destructor
        case Nobody => true)
  }

  lemma OthersKeepMine(parses: Parses, s: State, step: Step, me: Actor)
    requires ActorOf(step) != me
    ensures KeepsMine(s, Do(parses, s, step), me)
  {
    if !Enabled(s, step) || step.Begin? {
    } else if Caller(step).Some? {
      CallerFrame(s, step);
      if me.CallerThread? && me.id < |s.calls| { CallerTouchesOwn(s, step, me.id); }
    } else if OfDestructor(step) {
      DestructorFrame(s, step);
    } else {
      ReceiverFrame(parses, s, step);
    }
  }

  /** What a read on the socket brings. */
  datatype ReadOutcome = ReadBytes(data: Bytes) | ReadAgain | ReadFailed {
    function Data(): Bytes { if ReadBytes? then data else [] }

    predicate Ends() { ReadFailed? || (ReadBytes? && data == []) }
  }

  function DataOf(results: seq<ReadOutcome>): Bytes {
    if results == [] then [] else DataOf(results[..|results| - 1]) + results[|results| - 1].Data()
  }

  datatype WriteOutcome = Wrote(n: nat) | WriteInterrupted | WriteError

  /** How `CallMethod` ends; `Blocked` if it is still waiting for the lock, the kernel or its future. */
  datatype CallEnd = ChannelClosed | EncodeFailed | WriteFailed | Got(result: CallResult) | Blocked

  class BinaryRpcChannel {
    const parses: Parses
    var s: State
    ghost var states: seq<State>    // every state so far
    ghost var trace: seq<Step>      // and the steps between them

    ghost predicate Valid()
      reads this
    {
      Path(Next(parses), Start(), states, trace) && s == states[|trace|]
    }

    constructor (parses: Parses)
      ensures Valid() && s == Start() && this.parses == parses
    {
      this.parses, s, states, trace := parses, Start(), [Start()], [];
    }

    /** What every reachable state keeps holds of the object. */
    lemma IsRun()
      requires Valid()
      ensures s == Run(parses, trace) && Accounted(s) && RequestsOk(s)
      ensures Matched(parses, s) && Streamed(s) && Orderly(s)
    {
      PathIsRun(parses, states, trace);
      AlwaysAccounted(parses, trace);
      AlwaysFramed(parses, trace);
      AlwaysMatched(parses, trace);
    }

    lemma KnownCalls()
      requires Valid()
      ensures Accounted(s)
    {
      IsRun();
    }

    /** One atomic section of any thread; nothing if that thread is not at the right place for it. */
    method Take(step: Step)
      requires Valid()
      modifies this
      ensures Valid() && s == Do(parses, old(s), step)
    {
      PathNext(Next(parses), Start(), states, trace, step);
      s := Do(parses, s, step);
      states, trace := states + [s], trace + [step];
    }

    /** Any number of sections of threads other than `me`. */
    method Interfere(me: Actor)
      requires Valid()
      modifies this
      ensures Valid() && KeepsMine(old(s), s, me)
    {
      var steps: seq<Step> := *;
      for n := 0 to |steps|
        invariant Valid() && KeepsMine(old(s), s, me)
      {
        if ActorOf(steps[n]) != me {
          OthersKeepMine(parses, s, steps[n], me);
          Take(steps[n]);
        }
      }
    }

    lemma LockIsHeld(id: nat)
      requires Valid() && s.Has(id) && s.calls[id].pc.Writing?
      ensures s.sendOwner == Some(id) && s.calls[id].pc.sent <= |s.calls[id].frame|
    {
      IsRun();
      assert RequestOk(s, id);
    }

    /** A call that has ended is out of the table; after destruction none waits for an answer that will not come. */
    lemma CallSettled(id: nat)
      requires Valid() && s.Has(id)
      ensures var c := s.calls[id];
        && (c.pc.Refused? || c.pc.Withdrawn? || c.pc.Returned? ==> id !in s.pending)
        && (c.pc.Returned? ==> c.completions == 1)
        && (WasRegistered(c) && s.destructor.CleanedUp? ==> c.promise.Some? || c.pc.Withdrawn?)
    {
      IsRun();
      assert CallOk(s, id);
    }

    /** Where a result comes from. */
    lemma ResultExplained(id: nat)
      requires Valid() && s.Has(id)
      ensures ResultOk(parses, s, id)
      ensures s.calls[id].promise == Some(Abandoned) ==> CleanedUpWhilePending(parses, trace, id)
    {
      IsRun();
      assert ResultOk(parses, s, id);
      if s.calls[id].promise == Some(Abandoned) { AbandonedOnlyByCleanup(parses, trace, id); }
    }

    /** Back at its top on an open channel, the receiver has decoded every complete response it has read. */
    lemma AllDecoded()
      requires Valid() && s.receiver.AtTop? && s.running
      ensures s.packets == Consume(All(), s.received).packets
    {
      IsRun();
    }

    lemma NobodyWaits()
      requires Valid() && s.destructor.CleanedUp?
      ensures s.pending == {} && !s.running
      ensures forall id :: 0 <= id < |s.calls| && WasRegistered(s.calls[id]) ==> s.calls[id].promise.Some? || s.calls[id].pc.Withdrawn?
    {
      IsRun();
      TeardownLeavesNobodyWaiting(parses, trace, []);
      assert trace + [] == trace;
    }

    /** Under the table lock: every pending promise gets an exception, then the table is cleared. */
    method CleanupPendingRequests()
      requires forall id :: id in s.pending ==> id < |s.calls|
      modifies this`s
      ensures s == AbandonAll(old(s))
    {
      var calls, todo := s.calls, s.pending;
      while todo != {}
        invariant todo <= s.pending && |calls| == |s.calls| && s == old(s)
        invariant forall id :: 0 <= id < |calls| ==>
          calls[id] == if id in s.pending && id !in todo then Settle(s.calls[id], Abandoned) else s.calls[id]
        decreases todo
      {
        var id :| id in todo;
        calls := calls[id := Settle(calls[id], Abandoned)];
        todo := todo - {id};
      }
      assert calls == AbandonAll(s).calls;
      s := s.(calls := calls, pending := {});
    }

    method ReceiverCleanUp()
      requires Valid() && Enabled(s, CleanUp)
      modifies this
      ensures Valid() && s == AbandonAll(old(s)).(receiver := if old(s).receiver.corrupt then Stopping else Exited)
    {
      KnownCalls();
      PathNext(Next(parses), Start(), states, trace, CleanUp);
      CleanupPendingRequests();
      s := s.(receiver := if s.receiver.corrupt then Stopping else Exited);
      states, trace := states + [s], trace + [CleanUp];
    }

    method FinalCleanUp()
      requires Valid() && Enabled(s, DestroyCleanUp)
      modifies this
      ensures Valid() && s == AbandonAll(old(s)).(destructor := CleanedUp)
    {
      KnownCalls();
      PathNext(Next(parses), Start(), states, trace, DestroyCleanUp);
      CleanupPendingRequests();
      s := s.(destructor := CleanedUp);
      states, trace := states + [s], trace + [DestroyCleanUp];
    }

    /**
     * `CallMethod` on a calling thread, `encodes` saying whether the request serialises and `kernel`
     * what the socket writes return. A call that ended is in the table no more, and a result is the
     * call's own: see `AtMostOnceByOwnFrame`.
     */
    method CallMethod(meta: Bytes, body: Bytes, encodes: bool, kernel: seq<WriteOutcome>) returns (id: nat, end: CallEnd)
      requires Valid() && |s.calls| < ID_LIMIT && |meta| < TWO_32 && |body| < TWO_32
      modifies this
      ensures Valid() && s.Has(id) && id == |old(s).calls|
      ensures end == EndOf(s.calls[id])
      ensures match end
        case ChannelClosed => !s.running
        case EncodeFailed => !encodes
        case WriteFailed => encodes && FailsWithin(kernel, |s.calls[id].frame|)
        case Got(Answered(answer)) => encodes && parses(id, answer) && PacketSeen(s, id, answer)
        case Got(Unparsable(answer)) => encodes && !parses(id, answer) && PacketSeen(s, id, answer)
        case Got(Abandoned) => encodes && CleanedUpWhilePending(parses, trace, id)
        case Blocked => encodes && StuckAt(s.calls[id], s.sendOwner)
      ensures encodes && !end.ChannelClosed? ==> SentAs(s.calls[id], kernel)
      ensures encodes && !end.ChannelClosed? ==> s.calls[id].request == Some(Message(RpcMessageType.Request, id, meta, body))
      ensures !end.Blocked? ==> id !in s.pending
      ensures end.Got? ==> s.calls[id].completions == 1
      ensures end.Blocked? && s.destructor.CleanedUp? ==> s.calls[id].promise.Some?
    {
      id := Enter();
      if s.calls[id].pc.Refused? {
        end := ChannelClosed;
      } else if !encodes {
        Take(EncodeThrows(id));
        GiveUp(id);
        end := EncodeFailed;
      } else {
        Take(Encode(id, meta, body));
        end := SendAndWait(id, kernel);
      }
      CallSettled(id);
      ResultExplained(id);
    }

    /** Takes a sequence id and registers, unless the channel is closed. */
    method Enter() returns (id: nat)
      requires Valid() && |s.calls| < ID_LIMIT
      modifies this
      ensures Valid() && s.Has(id) && id == |old(s).calls| && s.calls[id].request.None?
      ensures s.calls[id].pc.Registered? || (s.calls[id].pc.Refused? && !s.running)
    {
      id := |s.calls|;
      KnownCalls();
      Take(Begin);
      Interfere(CallerThread(id));
      Take(Register(id));
      Interfere(CallerThread(id));
    }

    method GiveUp(id: nat)
      requires Valid() && s.Has(id) && s.calls[id].pc.Withdrawing?
      modifies this
      ensures Valid() && s.Has(id) && s.calls[id].pc.Withdrawn?
      ensures s.calls[id].request == old(s).calls[id].request && s.calls[id].frame == old(s).calls[id].frame
    {
      Interfere(CallerThread(id));
      Take(Withdraw(id));
    }

    method SendAndWait(id: nat, kernel: seq<WriteOutcome>) returns (end: CallEnd)
      requires Valid() && s.Has(id) && s.calls[id].pc.Encoded? && s.calls[id].request.Some?
      modifies this
      ensures Valid() && s.Has(id) && end == EndOf(s.calls[id]) && WasRegistered(s.calls[id])
      ensures s.calls[id].request == old(s).calls[id].request && (end.Blocked? ==> StuckAt(s.calls[id], s.sendOwner))
      ensures SentAs(s.calls[id], kernel)
      ensures end.Got? || end.Blocked? || (end.WriteFailed? && FailsWithin(kernel, |s.calls[id].frame|))
    {
      Interfere(CallerThread(id));
      if s.sendOwner.Some? { return Blocked; }
      Take(TakeSendLock(id));
      var failed := WriteAll(id, kernel);
      if failed {
        GiveUp(id);
        return WriteFailed;
      }
      end := Await(id);
    }

    /** `future.get()`. */
    method Await(id: nat) returns (end: CallEnd)
      requires Valid() && s.Has(id)
      requires s.calls[id].pc.Waiting? || (s.calls[id].pc.Writing? && s.calls[id].pc.sent < |s.calls[id].frame|)
      modifies this
      ensures Valid() && s.Has(id) && end == EndOf(s.calls[id]) && WasRegistered(s.calls[id])
      ensures s.calls[id].request == old(s).calls[id].request && s.calls[id].frame == old(s).calls[id].frame
      ensures if old(s).calls[id].pc.Writing? then s.calls[id].pc == old(s).calls[id].pc
              else s.calls[id].pc.Waiting? || s.calls[id].pc.Returned?
      ensures end.Got? || (end.Blocked? && StuckAt(s.calls[id], s.sendOwner))
    {
      Interfere(CallerThread(id));
      if s.calls[id].pc.Writing? || s.calls[id].promise.None? { return Blocked; }
      end := Got(s.calls[id].promise.value);
      Take(Resume(id));
    }

    /** The write loop, under the send lock. */
    method WriteAll(id: nat, kernel: seq<WriteOutcome>) returns (failed: bool)
      requires Valid() && s.Has(id) && s.calls[id].pc == Writing(0)
      modifies this
      ensures Valid() && s.Has(id)
      ensures s.calls[id].request == old(s).calls[id].request && s.calls[id].frame == old(s).calls[id].frame
      ensures failed <==> FailsWithin(kernel, |s.calls[id].frame|)
      ensures failed ==> s.calls[id].pc.Withdrawing?
      ensures !failed ==>
        if TakenBy(kernel) >= |s.calls[id].frame| then s.calls[id].pc.Waiting? && s.sendOwner.None?
        else s.calls[id].pc == Writing(TakenBy(kernel))
    {
      failed := false;
      var attempt := 0;
      ghost var size := |s.calls[id].frame|;
      while attempt < |kernel| && !failed && s.calls[id].pc.sent < |s.calls[id].frame|
        invariant Valid() && s.Has(id) && attempt <= |kernel|
        invariant s.calls[id].request == old(s).calls[id].request && s.calls[id].frame == old(s).calls[id].frame
        invariant failed ==> s.calls[id].pc.Withdrawing? && FailsWithin(kernel, size)
        invariant !failed ==>
          && s.calls[id].pc == Writing(Min(TakenBy(kernel[..attempt]), size))
          && !FailsWithin(kernel[..attempt], size)
        decreases |kernel| - attempt
      {
        OneMoreWrite(kernel, attempt, size);
        failed := WriteOnce(id, kernel[attempt]);
        attempt := attempt + 1;
      }
      assert kernel[..|kernel|] == kernel;
      if !failed {
        EnoughIsEnough(kernel, attempt, size);
        if s.calls[id].pc.sent == |s.calls[id].frame| {
          Take(ReleaseSendLock(id));
        }
      }
    }

    /** One `write`: zero or an error ends the call, an interruption is retried. */
    method WriteOnce(id: nat, outcome: WriteOutcome) returns (failed: bool)
      requires Valid() && s.Has(id)
      requires s.calls[id].pc.Writing? && s.calls[id].pc.sent < |s.calls[id].frame|
      modifies this
      ensures Valid() && s.Has(id)
      ensures s.calls[id].request == old(s).calls[id].request && s.calls[id].frame == old(s).calls[id].frame
      ensures failed <==> Refuses(outcome)
      ensures failed ==> s.calls[id].pc.Withdrawing?
      ensures !failed ==>
        var sent := old(s).calls[id].pc.sent;
        s.calls[id].pc == Writing(sent + if outcome.Wrote? then Min(outcome.n, |s.calls[id].frame| - sent) else 0)
    {
      failed := outcome == WriteError || outcome == Wrote(0);
      if failed {
        Take(WriteFails(id));
      } else if outcome.Wrote? {
        Take(WriteSome(id, Min(outcome.n, |s.calls[id].frame| - s.calls[id].pc.sent)));
      }
      Interfere(CallerThread(id));
    }

    /** `receive_loop()`, for as many reads as the oracle gives results. */
    method ReceiveLoop(results: seq<ReadOutcome>) returns (turn: nat)
      requires Valid() && s.receiver.AtTop?
      modifies this
      ensures Valid() && turn <= |results| && (s.receiver.Exited? || (s.receiver.AtTop? && turn == |results|))
      ensures s.receiver.AtTop? ==> s.received == old(s).received + DataOf(results)
      ensures s.receiver.AtTop? && s.running ==> s.packets == Consume(All(), s.received).packets
      ensures s.receiver.Exited? ==> !s.running || (turn > 0 && results[turn - 1].Ends())
    {
      turn := 0;
      assert DataOf(results[..0]) == [] && s.received + [] == s.received;
      while turn < |results| && s.receiver.AtTop?
        invariant Valid() && turn <= |results| && (s.receiver.AtTop? || s.receiver.Exited?)
        invariant s.receiver.AtTop? ==> s.received == old(s).received + DataOf(results[..turn])
        invariant s.receiver.Exited? ==> !s.running || (turn > 0 && results[turn - 1].Ends())
        decreases |results| - turn
      {
        ReadTurn(results[turn]);
        assert results[..turn + 1][..turn] == results[..turn];
        Assoc(old(s).received, DataOf(results[..turn]), results[turn].Data());
        turn := turn + 1;
      }
      assert results[..|results|] == results;
      if s.receiver.AtTop? && s.running { AllDecoded(); }
    }

    /** One turn of the outer loop: its test, and a read if the channel is still running. */
    method ReadTurn(result: ReadOutcome)
      requires Valid() && s.receiver.AtTop?
      modifies this
      ensures Valid() && (s.receiver.AtTop? || s.receiver.Exited?)
      ensures s.receiver.AtTop? ==> s.received == old(s).received + result.Data()
      ensures s.receiver.Exited? ==> !s.running || result.Ends()
    {
      Interfere(ReceiverThread);
      Take(TestOuter);
      Interfere(ReceiverThread);
      if s.receiver.Reading? {
        ReadOnce(result);
      }
    }

    method ReadOnce(result: ReadOutcome)
      requires Valid() && s.receiver.Reading?
      modifies this
      ensures Valid() && s.received == old(s).received + result.Data()
      ensures if result.ReadAgain? || result.Data() != [] then s.receiver.AtTop? else s.receiver.Exited?
    {
      if result.ReadAgain? {
        Take(ReadInterrupted);
      } else if result.ReadFailed? || result.data == [] {
        Take(ReadEnds);
        CleanUpNext();
      } else {
        Take(ReadData(result.data));
        DecodeLoop();
      }
    }

    /** Decodes and completes until the buffer starves, the channel stops, or a frame is corrupt. */
    method DecodeLoop()
      requires Valid() && s.receiver.Decoding?
      modifies this
      ensures Valid() && s.receiver.AtTop? && s.received == old(s).received
    {
      while s.receiver.Decoding?
        invariant Valid() && (s.receiver.Decoding? || s.receiver.AtTop?) && s.received == old(s).received
        decreases s.receiver.Decoding?, |s.readBuf|
      {
        DecodeTurn();
      }
    }

    method DecodeTurn()
      requires Valid() && s.receiver.Decoding?
      modifies this
      ensures Valid() && (s.receiver.AtTop? || (s.receiver.Decoding? && |s.readBuf| < |old(s).readBuf|)) && s.received == old(s).received
    {
      Interfere(ReceiverThread);
      Take(DecodeNext);
      if s.receiver.Matching? {
        MatchAndComplete();
      } else if s.receiver.CleaningUp? {
        Abort();
      }
    }

    /** A corrupt frame: everything pending fails first, and only then is the channel closed. */
    method Abort()
      requires Valid() && s.receiver == CleaningUp(true)
      modifies this
      ensures Valid() && s.receiver.AtTop? && s.received == old(s).received
    {
      CleanUpNext();
      Interfere(ReceiverThread);
      Take(ClearRunning);
    }

    method CleanUpNext()
      requires Valid() && s.receiver.CleaningUp?
      modifies this
      ensures Valid() && s.receiver == (if old(s).receiver.corrupt then Stopping else Exited) && s.received == old(s).received
    {
      Interfere(ReceiverThread);
      ReceiverCleanUp();
    }

    method MatchAndComplete()
      requires Valid() && s.receiver.Matching?
      modifies this
      ensures Valid() && s.receiver.Decoding? && s.readBuf == old(s).readBuf && s.received == old(s).received
    {
      Interfere(ReceiverThread);
      Take(Match);
      Interfere(ReceiverThread);
      if s.receiver.Completing? {
        CompleteContext();
      }
    }

    /** Gives the promise its value, or its exception when the response does not parse. */
    method CompleteContext()
      requires Valid() && s.receiver.Completing?
      modifies this
      ensures Valid() && s.receiver.Decoding? && s.readBuf == old(s).readBuf && s.received == old(s).received
    {
      KnownCalls();
      Take(Complete);
    }

    /** The destructor: once it has got past the join, its cleanup leaves nobody waiting. */
    method Destroy()
      requires Valid() && s.destructor.NotDestroyed?
      modifies this
      ensures Valid()
      ensures !s.destructor.FlagCleared? ==> s.pending == {} && !s.running
      ensures !s.destructor.FlagCleared? ==>
        forall id :: 0 <= id < |s.calls| && WasRegistered(s.calls[id]) ==> s.calls[id].promise.Some? || s.calls[id].pc.Withdrawn?
    {
      Take(DestroyFlag);
      Interfere(DestructorThread);
      if !s.receiver.Exited? {
        return;
      }
      Take(DestroyJoin);
      Interfere(DestructorThread);
      FinalCleanUp();
      Interfere(DestructorThread);
      NobodyWaits();
    }
  }

  predicate Refuses(outcome: WriteOutcome) { outcome == WriteError || outcome == Wrote(0) }

  /** The bytes a list of writes takes, if it is offered enough. */
  function TakenBy(kernel: seq<WriteOutcome>): nat {
    if kernel == [] then 0 else
      TakenBy(kernel[..|kernel| - 1]) + if kernel[|kernel| - 1].Wrote? then kernel[|kernel| - 1].n else 0
  }

  /** A write is refused before `size` bytes have been taken. */
  ghost predicate FailsWithin(kernel: seq<WriteOutcome>, size: nat) {
    exists i {:trigger kernel[i]} :: 0 <= i < |kernel| && Refuses(kernel[i]) && TakenBy(kernel[..i]) < size
  }

  lemma OneMoreWrite(kernel: seq<WriteOutcome>, i: nat, size: nat)
    requires i < |kernel|
    ensures TakenBy(kernel[..i + 1]) == TakenBy(kernel[..i]) + if kernel[i].Wrote? then kernel[i].n else 0
    ensures FailsWithin(kernel[..i + 1], size) <==> FailsWithin(kernel[..i], size) || (Refuses(kernel[i]) && TakenBy(kernel[..i]) < size)
    ensures Refuses(kernel[i]) && TakenBy(kernel[..i]) < size ==> FailsWithin(kernel, size)
  {
    var front, longer := kernel[..i], kernel[..i + 1];
    assert longer[..i] == front && longer[i] == kernel[i];
    if FailsWithin(front, size) {
      var k :| 0 <= k < i && Refuses(front[k]) && TakenBy(front[..k]) < size;
      assert longer[k] == front[k] && longer[..k] == front[..k];
    }
    if FailsWithin(longer, size) {
      var k :| 0 <= k < i + 1 && Refuses(longer[k]) && TakenBy(longer[..k]) < size;
      if k < i { assert front[k] == longer[k] && longer[..k] == front[..k]; }
    }
  }

  lemma {:induction false} TakesMore(kernel: seq<WriteOutcome>, i: nat)
    requires i <= |kernel|
    ensures TakenBy(kernel[..i]) <= TakenBy(kernel)
  {
    if i < |kernel| {
      var front := kernel[..|kernel| - 1];
      TakesMore(front, i);
      assert front[..i] == kernel[..i];
    } else {
      assert kernel[..i] == kernel;
    }
  }

  /** Once enough has been taken, what the kernel would answer later does not matter. */
  lemma EnoughIsEnough(kernel: seq<WriteOutcome>, i: nat, size: nat)
    requires i <= |kernel| && (i == |kernel| || TakenBy(kernel[..i]) >= size) && !FailsWithin(kernel[..i], size)
    ensures !FailsWithin(kernel, size)
    ensures TakenBy(kernel) >= size <==> TakenBy(kernel[..i]) >= size
  {
    assert kernel[..|kernel|] == kernel;
    TakesMore(kernel, i);
    forall k | 0 <= k < |kernel| && Refuses(kernel[k]) ensures TakenBy(kernel[..k]) >= size {
      if k < i {
        assert kernel[..i][k] == kernel[k] && kernel[..i][..k] == kernel[..k];
      } else {
        TakesMore(kernel[..k], i);
        assert kernel[..k][..i] == kernel[..i];
      }
    }
  }

  /** How far a call's frame got is what the kernel took of it. */
  predicate SentAs(c: Call, kernel: seq<WriteOutcome>) {
    && (c.pc.Writing? ==> c.pc.sent == TakenBy(kernel))
    && (c.pc.Waiting? || c.pc.Returned? ==> TakenBy(kernel) >= |c.frame|)
  }

  /** What a call that has not ended waits for. */
  predicate StuckAt(c: Call, sendMutex: Option<nat>) {
    || (c.pc.Encoded? && sendMutex.Some?)
    || (c.pc.Writing? && c.pc.sent < |c.frame|)
    || (c.pc.Waiting? && c.promise.None?)
  }

  function EndOf(c: Call): CallEnd {
    match c.pc
    case Refused => ChannelClosed
    case Withdrawn => if c.request.Some? then WriteFailed else EncodeFailed
    case Returned => if c.promise.Some? then Got(c.promise.value) else Blocked
    case _ => Blocked
  }
}
