/** What every interleaving of the multiplexed channel keeps. */
module ChannelSafety {
  import opened Common
  import opened BinaryRpcCodec
  import opened RpcFraming
  import opened ChannelProtocol

  /** What a step of a calling thread leaves alone. */
  lemma CallerFrame(s: State, step: Step)
    requires Caller(step).Some? && Enabled(s, step)
    ensures var t := DoCaller(s, step);
      && |t.calls| == |s.calls| && t.running == s.running && t.destructor == s.destructor
      && t.receiver == s.receiver && t.readBuf == s.readBuf && t.packets == s.packets && t.received == s.received
  {
  }

  /** Other calls are as they were, and no call's result changes. */
  lemma CallerTouchesOwn(s: State, step: Step, id: nat)
    requires Caller(step).Some? && Enabled(s, step) && id < |s.calls|
    ensures var t := DoCaller(s, step);
      && |t.calls| == |s.calls|
      && t.calls[id].promise == s.calls[id].promise && t.calls[id].completions == s.calls[id].completions
      && (id != Caller(step).value ==> t.calls[id] == s.calls[id] && (id in t.pending <==> id in s.pending))
  {
  }

  /** The sending side is untouched: settling promises leaves the threads that wait for them where they are. */
  ghost predicate SameSending(s: State, t: State) {
    && |t.calls| == |s.calls| && t.sendOwner == s.sendOwner && t.wire == s.wire && t.written == s.written && t.torn == s.torn
    && (forall id {:trigger t.calls[id]} :: 0 <= id < |s.calls| ==>
      t.calls[id].pc == s.calls[id].pc && t.calls[id].request == s.calls[id].request && t.calls[id].frame == s.calls[id].frame)
  }

  lemma AbandonFrame(s: State)
    ensures SameSending(s, AbandonAll(s))
  {
  }

  lemma DestructorFrame(s: State, step: Step)
    requires OfDestructor(step)
    ensures var t := DoDestructor(s, step);
      && SameSending(s, t) && (t.running ==> s.running)
      && t.receiver == s.receiver && t.readBuf == s.readBuf && t.packets == s.packets && t.received == s.received
  {
    AbandonFrame(s);
  }

  lemma ReceiverFrame(parses: Parses, s: State, step: Step)
    requires OfReceiver(step) && Enabled(s, step)
    ensures var t := DoReceiver(parses, s, step);
      && SameSending(s, t) && (t.running ==> s.running) && t.destructor == s.destructor
      && s.packets <= t.packets
  {
    AbandonFrame(s);
  }

  predicate WasRegistered(c: Call) { !c.pc.Allocated? && !c.pc.Refused? }

  predicate InTable(c: Call) {
    WasRegistered(c) && !c.pc.Withdrawn? && !c.pc.Returned?
  }

  predicate BeingCompleted(s: State, id: nat) { s.receiver.Completing? && s.receiver.id == id }

  /** A call in the table has no result yet; one out of it has a result, gave up, or is being completed. */
  predicate CallOk(s: State, id: nat)
    requires id < |s.calls|
  {
    var c := s.calls[id];
    && c.completions == (if c.promise.Some? then 1 else 0)
    && (!WasRegistered(c) ==> c.promise.None? && id !in s.pending && !BeingCompleted(s, id))
    && (id in s.pending ==> c.promise.None? && InTable(c) && !BeingCompleted(s, id))
    && (BeingCompleted(s, id) ==> c.promise.None?)
    && (WasRegistered(c) ==> id in s.pending || c.promise.Some? || c.pc.Withdrawn? || BeingCompleted(s, id))
    && (c.pc.Returned? ==> c.promise.Some?)
  }

  ghost predicate Accounted(s: State) {
    && |s.calls| >= 1
    && (forall id :: id in s.pending ==> s.Has(id))
    && (s.receiver.Completing? ==> s.Has(s.receiver.id))
    && (forall id {:trigger CallOk(s, id)} :: 0 <= id < |s.calls| ==> CallOk(s, id))
  }

  lemma CallerKeepsCall(s: State, step: Step, id: nat)
    requires Accounted(s) && id < |s.calls| && Caller(step).Some? && Enabled(s, step)
    ensures id < |DoCaller(s, step).calls| && CallOk(DoCaller(s, step), id)
  {
    assert CallOk(s, id);
    CallerFrame(s, step);
    if id == Caller(step).value {
      OwnStepKeepsCall(s, step);
    } else {
      CallerTouchesOwn(s, step, id);
    }
  }

  lemma OwnStepKeepsCall(s: State, step: Step)
    requires Caller(step).Some? && Enabled(s, step) && CallOk(s, Caller(step).value)
    ensures var id := Caller(step).value; id < |DoCaller(s, step).calls| && CallOk(DoCaller(s, step), id)
  {
    if !MovesOnly(step) {
      TableStepKeepsCall(s, step);
    }
  }

  /** The caller moves on and neither table nor results change. */
  predicate MovesOnly(step: Step) { !step.Register? && !step.Withdraw? && !step.Resume? }

  lemma TableStepKeepsCall(s: State, step: Step)
    requires (step.Register? || step.Withdraw? || step.Resume?) && Enabled(s, step) && CallOk(s, step.id)
    ensures step.id < |DoCaller(s, step).calls| && CallOk(DoCaller(s, step), step.id)
  {
  }

  lemma ReceiverKeepsCall(parses: Parses, s: State, step: Step, id: nat)
    requires Accounted(s) && id < |s.calls| && OfReceiver(step) && Enabled(s, step)
    ensures id < |DoReceiver(parses, s, step).calls| && CallOk(DoReceiver(parses, s, step), id)
  {
    assert CallOk(s, id);
  }

  lemma DestructorKeepsCall(s: State, step: Step, id: nat)
    requires Accounted(s) && id < |s.calls| && OfDestructor(step)
    ensures id < |DoDestructor(s, step).calls| && CallOk(DoDestructor(s, step), id)
  {
    assert CallOk(s, id);
  }

  lemma CallersAccounted(s: State, step: Step)
    requires Accounted(s) && Caller(step).Some? && Enabled(s, step)
    ensures Accounted(DoCaller(s, step))
  {
    var t := DoCaller(s, step);
    forall id | 0 <= id < |t.calls| ensures CallOk(t, id) { CallerKeepsCall(s, step, id); }
  }

  lemma ReceiverAccounted(parses: Parses, s: State, step: Step)
    requires Accounted(s) && OfReceiver(step) && Enabled(s, step)
    ensures Accounted(DoReceiver(parses, s, step))
  {
    var t := DoReceiver(parses, s, step);
    forall id | 0 <= id < |t.calls| ensures CallOk(t, id) { ReceiverKeepsCall(parses, s, step, id); }
  }

  lemma DestructorAccounted(s: State, step: Step)
    requires Accounted(s) && OfDestructor(step)
    ensures Accounted(DoDestructor(s, step))
  {
    var t := DoDestructor(s, step);
    forall id | 0 <= id < |t.calls| ensures CallOk(t, id) { DestructorKeepsCall(s, step, id); }
  }

  lemma BeginAccounted(s: State)
    requires Accounted(s)
    ensures Accounted(DoBegin(s))
  {
    var t := DoBegin(s);
    forall id | 0 <= id < |t.calls| ensures CallOk(t, id) {
      if id < |s.calls| { assert CallOk(s, id); }
    }
  }

  lemma AccountedStep(parses: Parses, s: State, step: Step)
    requires Accounted(s)
    ensures Accounted(Do(parses, s, step))
  {
    if !Enabled(s, step) {
    } else if step.Begin? {
      BeginAccounted(s);
    } else if Caller(step).Some? {
      CallersAccounted(s, step);
    } else if OfDestructor(step) {
      DestructorAccounted(s, step);
    } else {
      ReceiverAccounted(parses, s, step);
    }
  }

  lemma {:induction false} AlwaysAccounted(parses: Parses, steps: seq<Step>)
    ensures Accounted(Run(parses, steps))
  {
    if steps == [] {
      assert forall id :: 0 <= id < 1 ==> CallOk(Start(), id);
    } else {
      AlwaysAccounted(parses, steps[..|steps| - 1]);
      AccountedStep(parses, Run(parses, steps[..|steps| - 1]), steps[|steps| - 1]);
    }
  }

  /**
   * A registered call is in the table, or being completed, or has its result, and never two of
   * these; failing all three it withdrew. A call that withdrew is out of the table for good.
   */
  lemma InOnePlace(parses: Parses, steps: seq<Step>, id: nat)
    requires id < |Run(parses, steps).calls|
    ensures
      var s := Run(parses, steps); var c := s.calls[id];
      var inTable, completing, hasResult := id in s.pending, BeingCompleted(s, id), c.promise.Some?;
      && !(inTable && completing) && !(inTable && hasResult) && !(completing && hasResult)
      && (WasRegistered(c) <==> inTable || completing || hasResult || c.pc.Withdrawn?)
      && (c.pc.Withdrawn? ==> !inTable)
  {
    AlwaysAccounted(parses, steps);
    assert CallOk(Run(parses, steps), id);
  }

  /** One call, registered while the receiver has met the end of the stream. */
  function Closing(c: Call): State {
    Start().(calls := Start().calls + [c], pending := {1}, receiver := CleaningUp(false))
  }

  lemma FirstSteps(parses: Parses, c: Call)
    requires c == Call(Registered, None, [], None, 0)
    ensures Do(parses, Do(parses, Do(parses, Do(parses, Start(), Begin), Register(1)), TestOuter), ReadEnds) == Closing(c)
  {
    var s1 := Start().(calls := Start().calls + [c.(pc := Allocated)]);
    var s2 := Start().(calls := Start().calls + [c], pending := {1});
    assert Do(parses, Start(), Begin) == s1;
    assert Do(parses, s1, Register(1)) == s2;
  }

  lemma ReachClosing(parses: Parses, c: Call)
    requires c == Call(Registered, None, [], None, 0)
    ensures Run(parses, [] + [Begin] + [Register(1)] + [TestOuter] + [ReadEnds]) == Closing(c)
  {
    RunNext(parses, [], Begin);
    FirstSteps(parses, c);
    RunNext(parses, [] + [Begin], Register(1));
    RunNext(parses, [] + [Begin] + [Register(1)], TestOuter);
    RunNext(parses, [] + [Begin] + [Register(1)] + [TestOuter], ReadEnds);
  }

  lemma ClosingCleansUp(parses: Parses, c: Call)
    ensures Do(parses, Closing(c), CleanUp) ==
      Closing(Settle(c, Abandoned)).(pending := {}, receiver := Exited)
  {
    assert AbandonAll(Closing(c)).calls == Closing(Settle(c, Abandoned)).calls;
  }

  lemma LateWithdrawal(parses: Parses, s: State)
    requires |s.calls| == 2 && s.calls[1].pc.Registered?
    ensures var t := Do(parses, Do(parses, s, EncodeThrows(1)), Withdraw(1));
      |t.calls| == 2 && t.calls[1] == s.calls[1].(pc := Withdrawn)
  {
  }

  /** A call whose request did not encode withdraws although a cleanup has already given it a result. */
  lemma WithdrawnWithResult(parses: Parses, steps: seq<Step>)
    requires steps == [] + [Begin] + [Register(1)] + [TestOuter] + [ReadEnds] + [CleanUp] + [EncodeThrows(1)] + [Withdraw(1)]
    ensures var s := Run(parses, steps); s.Has(1) && s.calls[1].pc.Withdrawn? && s.calls[1].promise == Some(Abandoned)
  {
    var c := Call(Registered, None, [], None, 0);
    var closing := [] + [Begin] + [Register(1)] + [TestOuter] + [ReadEnds];
    ReachClosing(parses, c);
    ClosingCleansUp(parses, c);
    LateWithdrawal(parses, Do(parses, Closing(c), CleanUp));
    RunNext(parses, closing, CleanUp);
    RunNext(parses, closing + [CleanUp], EncodeThrows(1));
    RunNext(parses, closing + [CleanUp] + [EncodeThrows(1)], Withdraw(1));
  }

  /** What a writer needs to be true of its request. */
  predicate RequestOk(s: State, id: nat)
    requires id < |s.calls|
  {
    var c := s.calls[id];
    && (c.request.Some? ==> FrameOk(c.request.value, c.frame, id))
    && (c.pc.Encoded? || c.pc.Writing? ==> c.request.Some?)
    && (c.pc.Writing? <==> s.sendOwner == Some(id))
    && (c.pc.Writing? ==> c.pc.sent <= |c.frame|)
  }

  predicate FrameOk(m: Message, frame: Bytes, id: nat) {
    m.Fits() && m.kind.Request? && m.sequenceId == id && frame == m.Encoded()
  }

  /** The part of a frame the lock holder has written. */
  function Partial(s: State): Bytes {
    if s.sendOwner.Some? && s.sendOwner.value < |s.calls| then PartOf(s.calls[s.sendOwner.value]) else []
  }

  function PartOf(c: Call): Bytes {
    if c.pc.Writing? && c.pc.sent <= |c.frame| then c.frame[..c.pc.sent] else []
  }

  ghost predicate RequestsOk(s: State) {
    && (s.sendOwner.Some? ==> s.Has(s.sendOwner.value))
    && (forall id {:trigger RequestOk(s, id)} :: 0 <= id < |s.calls| ==> RequestOk(s, id))
  }

  ghost predicate WireOk(s: State) {
    && (forall m :: m in s.written ==> m.Fits() && m.kind.Request?)
    && (!s.torn ==> s.wire == EncodedAll(s.written) + Partial(s))
  }

  lemma {:induction false} EncodedSnoc(messages: seq<Message>, m: Message)
    ensures EncodedAll(messages + [m]) == EncodedAll(messages) + m.Encoded()
  {
    if messages == [] {
      assert [m][1..] == [];
      assert [] + [m] == [m];
      assert m.Encoded() + [] == m.Encoded();
    } else {
      assert (messages + [m])[1..] == messages[1..] + [m];
      EncodedSnoc(messages[1..], m);
    }
  }

  lemma SameSendingIsEnough(s: State, t: State)
    requires RequestsOk(s) && WireOk(s) && SameSending(s, t)
    ensures RequestsOk(t) && WireOk(t)
  {
    forall id | 0 <= id < |t.calls| ensures RequestOk(t, id) { assert RequestOk(s, id); }
  }

  lemma CallerKeepsRequests(s: State, step: Step, id: nat)
    requires RequestsOk(s) && id < |s.calls| && Caller(step).Some? && Enabled(s, step)
    ensures |DoCaller(s, step).calls| == |s.calls| && RequestOk(DoCaller(s, step), id)
  {
    assert RequestOk(s, id) && RequestOk(s, Caller(step).value);
    if id == Caller(step).value {
      OwnStepKeepsRequest(s, step);
    } else {
      CallerTouchesOwn(s, step, id);
      OthersKeepLock(s, step, id);
    }
  }

  lemma OthersKeepLock(s: State, step: Step, id: nat)
    requires Caller(step).Some? && Enabled(s, step) && id != Caller(step).value
    requires RequestOk(s, Caller(step).value)
    ensures DoCaller(s, step).sendOwner == Some(id) <==> s.sendOwner == Some(id)
  {
  }

  lemma OwnStepKeepsRequest(s: State, step: Step)
    requires Caller(step).Some? && Enabled(s, step) && RequestOk(s, Caller(step).value)
    ensures var id := Caller(step).value; |DoCaller(s, step).calls| == |s.calls| && RequestOk(DoCaller(s, step), id)
  {
    if HoldsLock(step) {
      LockStepKeepsRequest(s, step);
    } else if step.Encode? {
      EncodeKeepsRequest(s, step.id, step.meta, step.body);
    } else {
      CallerTouchesOwn(s, step, Caller(step).value);
    }
  }

  predicate HoldsLock(step: Step) { step.TakeSendLock? || step.WriteSome? || step.WriteFails? || step.ReleaseSendLock? }

  lemma LockStepKeepsRequest(s: State, step: Step)
    requires HoldsLock(step) && Enabled(s, step) && RequestOk(s, step.id)
    ensures |DoCaller(s, step).calls| == |s.calls| && RequestOk(DoCaller(s, step), step.id)
  {
  }

  lemma EncodeKeepsRequest(s: State, id: nat, meta: Bytes, body: Bytes)
    requires Enabled(s, Encode(id, meta, body)) && RequestOk(s, id)
    ensures var t := DoCaller(s, Encode(id, meta, body)); |t.calls| == |s.calls| && RequestOk(t, id)
  {
  }

  lemma CallersRequestsOk(s: State, step: Step)
    requires RequestsOk(s) && Caller(step).Some? && Enabled(s, step)
    ensures RequestsOk(DoCaller(s, step))
  {
    var t := DoCaller(s, step);
    CallerFrame(s, step);
    forall id | 0 <= id < |t.calls| ensures RequestOk(t, id) { CallerKeepsRequests(s, step, id); }
  }

  lemma BeginKeepsSending(s: State)
    requires RequestsOk(s) && WireOk(s)
    ensures RequestsOk(DoBegin(s)) && WireOk(DoBegin(s))
  {
    var t := DoBegin(s);
    forall id | 0 <= id < |t.calls| ensures RequestOk(t, id) {
      if id < |s.calls| { assert RequestOk(s, id); }
    }
    if s.sendOwner.Some? { assert RequestOk(s, s.sendOwner.value); }
  }

  lemma WriteKeepsWire(s: State, id: nat, n: nat)
    requires WireOk(s) && Enabled(s, WriteSome(id, n)) && s.sendOwner == Some(id)
    ensures WireOk(DoCaller(s, WriteSome(id, n)))
  {
    var c := s.calls[id];
    var t := DoCaller(s, WriteSome(id, n));
    if !s.torn {
      assert Partial(s) == c.frame[..c.pc.sent] && Partial(t) == c.frame[..c.pc.sent + n];
      WriteExtends(s.wire, EncodedAll(s.written), c.frame, c.pc.sent, n);
    }
  }

  lemma WriteExtends(wire: Bytes, base: Bytes, frame: Bytes, sent: nat, n: nat)
    requires sent + n <= |frame| && wire == base + frame[..sent]
    ensures wire + frame[sent..sent + n] == base + frame[..sent + n]
  {
    assert frame[..sent + n] == frame[..sent] + frame[sent..sent + n];
  }

  lemma ReleaseKeepsWire(s: State, id: nat)
    requires RequestsOk(s) && WireOk(s) && Enabled(s, ReleaseSendLock(id))
    ensures WireOk(DoCaller(s, ReleaseSendLock(id)))
  {
    assert RequestOk(s, id);
    var c := s.calls[id];
    EncodedSnoc(s.written, c.request.value);
    assert Partial(s) == c.frame[..|c.frame|] == c.frame;
  }

  lemma LockKeepsWire(s: State, id: nat)
    requires RequestsOk(s) && WireOk(s) && Enabled(s, TakeSendLock(id))
    ensures WireOk(DoCaller(s, TakeSendLock(id)))
  {
    assert RequestOk(s, id);
    assert s.calls[id].frame[..0] == [];
  }

  lemma FailureKeepsWire(s: State, id: nat)
    requires RequestsOk(s) && WireOk(s) && Enabled(s, WriteFails(id))
    ensures WireOk(DoCaller(s, WriteFails(id)))
  {
    assert RequestOk(s, id);
    assert s.calls[id].pc.sent == 0 ==> Partial(s) == [];
  }

  lemma ElsewhereKeepsWire(s: State, step: Step)
    requires RequestsOk(s) && WireOk(s) && Caller(step).Some? && Enabled(s, step)
    requires !step.WriteSome? && !step.ReleaseSendLock? && !step.TakeSendLock? && !step.WriteFails?
    ensures WireOk(DoCaller(s, step))
  {
    assert RequestOk(s, Caller(step).value);
    if s.sendOwner.Some? {
      assert RequestOk(s, s.sendOwner.value);
      CallerTouchesOwn(s, step, s.sendOwner.value);
    }
  }

  lemma CallersKeepWire(s: State, step: Step)
    requires RequestsOk(s) && WireOk(s) && Caller(step).Some? && Enabled(s, step)
    ensures WireOk(DoCaller(s, step))
  {
    match step
    case WriteSome(id, n) =>
      assert RequestOk(s, id);
      WriteKeepsWire(s, id, n);
    case ReleaseSendLock(id) => ReleaseKeepsWire(s, id);
    case TakeSendLock(id) => LockKeepsWire(s, id);
    case WriteFails(id) => FailureKeepsWire(s, id);
    case _ => ElsewhereKeepsWire(s, step);
  }

  lemma FramedStep(parses: Parses, s: State, step: Step)
    requires RequestsOk(s) && WireOk(s)
    ensures RequestsOk(Do(parses, s, step)) && WireOk(Do(parses, s, step))
  {
    if !Enabled(s, step) {
    } else if step.Begin? {
      BeginKeepsSending(s);
    } else if Caller(step).Some? {
      CallersRequestsOk(s, step);
      CallersKeepWire(s, step);
    } else if OfDestructor(step) {
      DestructorFrame(s, step);
      SameSendingIsEnough(s, DoDestructor(s, step));
    } else {
      ReceiverFrame(parses, s, step);
      SameSendingIsEnough(s, DoReceiver(parses, s, step));
    }
  }

  ghost predicate Framed(s: State) { RequestsOk(s) && WireOk(s) }

  lemma {:induction false} AlwaysFramed(parses: Parses, steps: seq<Step>)
    ensures Framed(Run(parses, steps))
  {
    if steps == [] {
      assert RequestOk(Start(), 0);
    } else {
      AlwaysFramed(parses, steps[..|steps| - 1]);
      FramedStep(parses, Run(parses, steps[..|steps| - 1]), steps[|steps| - 1]);
    }
  }

  /** Reading the whole stream of responses, with no opinion on their metadata. */
  function All(): Bytes -> bool { _ => true }

  ghost predicate PacketSeen(s: State, id: nat, body: Bytes) {
    exists p :: p in s.packets && p.header.sequenceId == id && p.body == body
  }

  /** Every result a call was given came in a frame with the call's own id. */
  predicate ResultKind(parses: Parses, id: nat, o: CallResult) {
    match o
    case Answered(body) => parses(id, body)
    case Unparsable(body) => !parses(id, body)
    case Abandoned => true
  }

  ghost predicate ResultOk(parses: Parses, s: State, id: nat)
    requires id < |s.calls|
  {
    var o := s.calls[id].promise;
    && (o.Some? ==> ResultKind(parses, id, o.value))
    && (o.Some? && o.value.Answered? ==> PacketSeen(s, id, o.value.body))
    && (o.Some? && o.value.Unparsable? ==> PacketSeen(s, id, o.value.body))
  }

  ghost predicate Matched(parses: Parses, s: State) {
    && (s.receiver.Matching? ==> s.receiver.packet in s.packets)
    && (s.receiver.Completing? ==> s.receiver.packet in s.packets && s.receiver.packet.header.sequenceId == s.receiver.id)
    && (forall id {:trigger ResultOk(parses, s, id)} :: 0 <= id < |s.calls| ==> ResultOk(parses, s, id))
  }

  lemma SeenStays(s: State, t: State, id: nat, body: Bytes)
    requires PacketSeen(s, id, body) && s.packets <= t.packets
    ensures PacketSeen(t, id, body)
  {
    var p :| p in s.packets && p.header.sequenceId == id && p.body == body;
    assert p in t.packets;
  }

  /** A step that gives no answer leaves each result as it is, or abandons the call. */
  ghost predicate SameResults(s: State, t: State) {
    && |s.calls| <= |t.calls| && s.packets <= t.packets
    && (forall id {:trigger t.calls[id]} :: 0 <= id < |s.calls| ==>
      t.calls[id].promise == s.calls[id].promise || t.calls[id].promise == Some(Abandoned))
    && (forall id {:trigger t.calls[id]} :: |s.calls| <= id < |t.calls| ==> t.calls[id].promise.None?)
  }

  lemma SameResultsIsEnough(parses: Parses, s: State, t: State)
    requires Matched(parses, s) && SameResults(s, t)
    ensures forall id {:trigger ResultOk(parses, t, id)} :: 0 <= id < |t.calls| ==> ResultOk(parses, t, id)
  {
    forall id | 0 <= id < |t.calls| ensures ResultOk(parses, t, id) {
      if id < |s.calls| && t.calls[id].promise == s.calls[id].promise {
        assert ResultOk(parses, s, id);
        var o := s.calls[id].promise;
        if o.Some? && !o.value.Abandoned? { SeenStays(s, t, id, o.value.body); }
      }
    }
  }

  lemma CompleteMatched(parses: Parses, s: State)
    requires Matched(parses, s) && Enabled(s, Complete)
    ensures Matched(parses, DoReceiver(parses, s, Complete))
  {
    var t := DoReceiver(parses, s, Complete);
    forall id | 0 <= id < |t.calls| ensures ResultOk(parses, t, id) {
      assert ResultOk(parses, s, id);
      if id == s.receiver.id {
        assert s.receiver.packet in t.packets;
        assert PacketSeen(t, id, s.receiver.packet.body);
      } else if s.calls[id].promise.Some? && !s.calls[id].promise.value.Abandoned? {
        SeenStays(s, t, id, s.calls[id].promise.value.body);
      }
    }
  }

  lemma ReceiverSameResults(parses: Parses, s: State, step: Step)
    requires OfReceiver(step) && Enabled(s, step) && !step.Complete?
    ensures SameResults(s, DoReceiver(parses, s, step))
  {
  }

  lemma ReceiverHoldsSeen(parses: Parses, s: State, step: Step)
    requires Matched(parses, s) && OfReceiver(step) && Enabled(s, step)
    ensures var t := DoReceiver(parses, s, step);
      && (t.receiver.Matching? ==> t.receiver.packet in t.packets)
      && (t.receiver.Completing? ==> t.receiver.packet in t.packets && t.receiver.packet.header.sequenceId == t.receiver.id)
  {
  }

  lemma ReceiverMatched(parses: Parses, s: State, step: Step)
    requires Matched(parses, s) && OfReceiver(step) && Enabled(s, step)
    ensures Matched(parses, DoReceiver(parses, s, step))
  {
    if step.Complete? {
      CompleteMatched(parses, s);
    } else {
      ReceiverSameResults(parses, s, step);
      SameResultsIsEnough(parses, s, DoReceiver(parses, s, step));
      ReceiverHoldsSeen(parses, s, step);
    }
  }

  lemma CallersMatched(parses: Parses, s: State, step: Step)
    requires Matched(parses, s) && Caller(step).Some? && Enabled(s, step)
    ensures Matched(parses, DoCaller(s, step))
  {
    var t := DoCaller(s, step);
    CallerFrame(s, step);
    forall id | 0 <= id < |s.calls| ensures t.calls[id].promise == s.calls[id].promise { CallerTouchesOwn(s, step, id); }
    SameResultsIsEnough(parses, s, t);
  }

  lemma MatchedStep(parses: Parses, s: State, step: Step)
    requires Matched(parses, s)
    ensures Matched(parses, Do(parses, s, step))
  {
    if !Enabled(s, step) {
    } else if step.Begin? {
      SameResultsIsEnough(parses, s, DoBegin(s));
    } else if Caller(step).Some? {
      CallersMatched(parses, s, step);
    } else if OfDestructor(step) {
      DestructorFrame(s, step);
      SameResultsIsEnough(parses, s, DoDestructor(s, step));
    } else {
      ReceiverMatched(parses, s, step);
    }
  }

  /** The bytes read are the packets decoded plus the unread buffer; the buffer starves whenever more is read. */
  ghost predicate Streamed(s: State) {
    && Consume(All(), s.received) == Consume(All(), s.readBuf).AfterAll(s.packets)
    && (s.receiver.Reading? || (s.receiver.AtTop? && s.running) ==>
      Consume(All(), s.readBuf) == RpcFraming.Outcome([], s.readBuf, false))
    && (s.receiver.Stopping? || s.receiver == CleaningUp(true) ==> Consume(All(), s.readBuf).corrupt)
  }

  lemma StreamedStep(parses: Parses, s: State, step: Step)
    requires Streamed(s)
    ensures Streamed(Do(parses, s, step))
  {
    if !Enabled(s, step) || step.Begin? {
    } else if Caller(step).Some? {
      CallerFrame(s, step);
    } else if OfDestructor(step) {
      DestructorFrame(s, step);
    } else if step.ReadData? {
      ReadKeepsStream(s, step.data);
    } else if step.DecodeNext? {
      DecodeKeepsStream(s);
    } else {
      QuietStep(parses, s, step);
    }
  }

  lemma ReadKeepsStream(s: State, data: Bytes)
    requires Streamed(s) && s.receiver.Reading?
    ensures Streamed(s.(receiver := Decoding, readBuf := s.readBuf + data, received := s.received + data))
  {
    ConsumeSplit(All(), s.received, data);
    AfterNone(RpcFraming.Outcome(s.packets, s.readBuf, false));
  }

  lemma DecodeKeepsStream(s: State)
    requires Streamed(s) && s.receiver.Decoding?
    ensures Streamed(DoDecode(s))
  {
    match ParseFrame(s.readBuf)
    case Frame(h, m, b) =>
      PrefixStable(s.readBuf, []);
      AfterOne(Consume(All(), s.readBuf[h.PacketSize()..]), s.packets, Packet(h, m, b));
    case _ =>
  }

  lemma QuietStep(parses: Parses, s: State, step: Step)
    requires OfReceiver(step) && Enabled(s, step) && !step.ReadData? && !step.DecodeNext?
    ensures var t := DoReceiver(parses, s, step);
      && t.received == s.received && t.readBuf == s.readBuf && t.packets == s.packets
      && (t.running ==> s.running)
      && (t.receiver.Reading? ==> s.receiver.Reading? || (s.receiver.AtTop? && s.running))
      && (t.receiver.AtTop? && t.running ==> s.receiver.Reading? || (s.receiver.AtTop? && s.running))
      && (t.receiver.Stopping? || t.receiver == CleaningUp(true) ==> s.receiver.Stopping? || s.receiver == CleaningUp(true))
  {
  }

  /** Destruction runs in order, and never reopens the channel. */
  predicate Orderly(s: State) {
    && (!s.destructor.NotDestroyed? ==> !s.running)
    && (s.destructor.Joined? || s.destructor.CleanedUp? ==> s.receiver.Exited?)
    && (s.destructor.CleanedUp? ==> s.pending == {})
  }

  lemma OrderlyStep(parses: Parses, s: State, step: Step)
    requires Orderly(s)
    ensures Orderly(Do(parses, s, step))
  {
    if !Enabled(s, step) || step.Begin? || OfDestructor(step) {
    } else if Caller(step).Some? {
      CallerOrderly(s, step);
    } else {
      ReceiverOrderly(parses, s, step);
    }
  }

  lemma CallerOrderly(s: State, step: Step)
    requires Orderly(s) && Caller(step).Some? && Enabled(s, step)
    ensures Orderly(DoCaller(s, step))
  {
  }

  lemma ReceiverOrderly(parses: Parses, s: State, step: Step)
    requires Orderly(s) && OfReceiver(step) && Enabled(s, step)
    ensures Orderly(DoReceiver(parses, s, step))
  {
  }

  lemma {:induction false} AlwaysMatched(parses: Parses, steps: seq<Step>)
    ensures var s := Run(parses, steps); Matched(parses, s) && Streamed(s) && Orderly(s)
  {
    if steps == [] {
      assert ResultOk(parses, Start(), 0);
      AfterNone(Consume(All(), []));
    } else {
      var s, step := Run(parses, steps[..|steps| - 1]), steps[|steps| - 1];
      AlwaysMatched(parses, steps[..|steps| - 1]);
      MatchedStep(parses, s, step);
      StreamedStep(parses, s, step);
      OrderlyStep(parses, s, step);
    }
  }

  /**
   * Each call is completed at most once; with a value only by a frame of the received stream that
   * carries its own sequence id and whose body parses. Duplicate and unknown ids complete nothing.
   */
  lemma AtMostOnceByOwnFrame(parses: Parses, steps: seq<Step>, id: nat)
    requires id < |Run(parses, steps).calls|
    ensures var s := Run(parses, steps); var c := s.calls[id];
      && c.completions <= 1
      && (c.pc.Returned? ==> c.completions == 1)
      && (c.promise.Some? && c.promise.value.Answered? ==>
        parses(id, c.promise.value.body) &&
        exists p :: p in Consume(All(), s.received).packets && p.header.sequenceId == id && p.body == c.promise.value.body)
  {
    var s := Run(parses, steps);
    AlwaysAccounted(parses, steps);
    AlwaysMatched(parses, steps);
    assert CallOk(s, id) && ResultOk(parses, s, id);
    var c := s.calls[id];
    if c.promise.Some? && c.promise.value.Answered? {
      var p :| p in s.packets && p.header.sequenceId == id && p.body == c.promise.value.body;
      assert p in Consume(All(), s.received).packets;
    }
  }

  /** Some step so far was a cleanup, the receiver's or the destructor's, that found the call in the table. */
  ghost predicate CleanedUpWhilePending(parses: Parses, steps: seq<Step>, id: nat) {
    exists i {:trigger steps[i]} :: 0 <= i < |steps| && (steps[i].CleanUp? || steps[i].DestroyCleanUp?)
      && Enabled(Run(parses, steps[..i]), steps[i]) && id in Run(parses, steps[..i]).pending
  }

  lemma CleanupWasEarlier(parses: Parses, front: seq<Step>, last: Step, id: nat)
    requires CleanedUpWhilePending(parses, front, id)
    ensures CleanedUpWhilePending(parses, front + [last], id)
  {
    var steps := front + [last];
    var i :| 0 <= i < |front| && (front[i].CleanUp? || front[i].DestroyCleanUp?)
             && Enabled(Run(parses, front[..i]), front[i]) && id in Run(parses, front[..i]).pending;
    assert steps[i] == front[i] && steps[..i] == front[..i];
  }

  lemma CleanupIsNow(parses: Parses, front: seq<Step>, last: Step, id: nat)
    requires (last.CleanUp? || last.DestroyCleanUp?) && Enabled(Run(parses, front), last) && id in Run(parses, front).pending
    ensures CleanedUpWhilePending(parses, front + [last], id)
  {
    var steps := front + [last];
    assert steps[|front|] == last && steps[..|front|] == front;
  }

  lemma CallerAbandonsNobody(s: State, step: Step, id: nat)
    requires Caller(step).Some? && Enabled(s, step) && id < |s.calls|
    ensures id < |DoCaller(s, step).calls| && DoCaller(s, step).calls[id].promise == s.calls[id].promise
  {
    CallerTouchesOwn(s, step, id);
  }

  lemma ReceiverAbandonsPending(parses: Parses, s: State, step: Step, id: nat)
    requires OfReceiver(step) && Enabled(s, step) && id < |s.calls|
    requires s.calls[id].promise != Some(Abandoned) && !(step.CleanUp? && id in s.pending)
    ensures id < |DoReceiver(parses, s, step).calls| && DoReceiver(parses, s, step).calls[id].promise != Some(Abandoned)
  {
  }

  lemma OnlyCleanupAbandons(parses: Parses, s: State, step: Step, id: nat)
    requires id < |s.calls| && s.calls[id].promise != Some(Abandoned)
    requires !(Enabled(s, step) && (step.CleanUp? || step.DestroyCleanUp?) && id in s.pending)
    ensures var t := Do(parses, s, step); id < |t.calls| && t.calls[id].promise != Some(Abandoned)
  {
    if !Enabled(s, step) || step.Begin? {
    } else if Caller(step).Some? {
      CallerAbandonsNobody(s, step, id);
    } else if OfReceiver(step) {
      ReceiverAbandonsPending(parses, s, step, id);
    }
  }

  /** A call is abandoned only by a cleanup that found it in the table. */
  lemma {:induction false} AbandonedOnlyByCleanup(parses: Parses, steps: seq<Step>, id: nat)
    requires id < |Run(parses, steps).calls| && Run(parses, steps).calls[id].promise == Some(Abandoned)
    ensures CleanedUpWhilePending(parses, steps, id)
  {
    if steps != [] {
      var front, last := steps[..|steps| - 1], steps[|steps| - 1];
      var s := Run(parses, front);
      assert steps == front + [last];
      RunNext(parses, front, last);
      if id < |s.calls| && s.calls[id].promise == Some(Abandoned) {
        AbandonedOnlyByCleanup(parses, front, id);
        CleanupWasEarlier(parses, front, last, id);
      } else if Enabled(s, last) && (last.CleanUp? || last.DestroyCleanUp?) && id in s.pending {
        CleanupIsNow(parses, front, last, id);
      } else if id < |s.calls| {
        OnlyCleanupAbandons(parses, s, last, id);
      } else {
        NewCallsAreOpen(parses, s, last, id);
      }
    }
  }

  lemma NewCallsAreOpen(parses: Parses, s: State, step: Step, id: nat)
    requires |s.calls| <= id < |Do(parses, s, step).calls|
    ensures Do(parses, s, step).calls[id].promise.None?
  {
    if Enabled(s, step) {
      if Caller(step).Some? {
        CallerFrame(s, step);
      } else if OfDestructor(step) {
        DestructorFrame(s, step);
      } else if OfReceiver(step) {
        ReceiverFrame(parses, s, step);
      }
    }
  }

  lemma ReceiverKeepsResult(parses: Parses, s: State, step: Step, id: nat)
    requires Accounted(s) && OfReceiver(step) && Enabled(s, step) && id < |s.calls| && s.calls[id].promise.Some?
    ensures id < |DoReceiver(parses, s, step).calls| && DoReceiver(parses, s, step).calls[id].promise == s.calls[id].promise
  {
    assert CallOk(s, id);
  }

  lemma DestructorKeepsResult(s: State, step: Step, id: nat)
    requires Accounted(s) && OfDestructor(step) && id < |s.calls| && s.calls[id].promise.Some?
    ensures id < |DoDestructor(s, step).calls| && DoDestructor(s, step).calls[id].promise == s.calls[id].promise
  {
    assert CallOk(s, id);
  }

  lemma ResultStays(parses: Parses, s: State, step: Step, id: nat)
    requires Accounted(s) && id < |s.calls| && s.calls[id].promise.Some?
    ensures var t := Do(parses, s, step); id < |t.calls| && t.calls[id].promise == s.calls[id].promise
  {
    if !Enabled(s, step) || step.Begin? {
    } else if Caller(step).Some? {
      CallerTouchesOwn(s, step, id);
    } else if OfDestructor(step) {
      DestructorKeepsResult(s, step, id);
    } else {
      ReceiverKeepsResult(parses, s, step, id);
    }
  }

  /** A result is final: no later step takes it back or replaces it. */
  lemma {:induction false} ResultIsFinal(parses: Parses, steps: seq<Step>, later: seq<Step>, id: nat)
    requires id < |Run(parses, steps).calls| && Run(parses, steps).calls[id].promise.Some?
    ensures var t := Run(parses, steps + later);
      id < |t.calls| && t.calls[id].promise == Run(parses, steps).calls[id].promise
  {
    if later == [] {
      assert steps + later == steps;
    } else {
      var front, last := later[..|later| - 1], later[|later| - 1];
      ResultIsFinal(parses, steps, front, id);
      AlwaysAccounted(parses, steps + front);
      assert steps + later == (steps + front) + [last];
      RunNext(parses, steps + front, last);
      ResultStays(parses, Run(parses, steps + front), last, id);
    }
  }

  /** The result a response gives: its body as the value if it parses, else an exception over that body. */
  predicate ResultOf(parses: Parses, id: nat, body: Bytes, promise: Option<CallResult>) {
    && (promise == Some(Answered(body)) <==> parses(id, body))
    && (promise == Some(Unparsable(body)) <==> !parses(id, body))
  }

  /** The response is on its way to the call, or has arrived. */
  predicate Delivered(parses: Parses, t: State, id: nat, packet: Packet) {
    && id < |t.calls|
    && (t.receiver == Completing(id, packet) || ResultOf(parses, id, packet.body, t.calls[id].promise))
  }

  lemma DeliveredStep(parses: Parses, t: State, step: Step, id: nat, packet: Packet)
    requires Accounted(t) && Delivered(parses, t, id, packet)
    ensures Delivered(parses, Do(parses, t, step), id, packet)
  {
    if t.receiver == Completing(id, packet) {
      CompletingStep(parses, t, step, id, packet);
    } else {
      ResultStays(parses, t, step, id);
    }
  }

  lemma CompletingStep(parses: Parses, t: State, step: Step, id: nat, packet: Packet)
    requires t.receiver == Completing(id, packet) && id < |t.calls|
    ensures Delivered(parses, Do(parses, t, step), id, packet)
  {
    if !Enabled(t, step) || step.Begin? {
    } else if Caller(step).Some? {
      CallerFrame(t, step);
    } else if OfDestructor(step) {
      DestructorFrame(t, step);
    }
  }

  /**
   * A decoded response that finds its own id in the table: from the moment it is looked up it is
   * either still being handed over or the call has its result, the value exactly when the body parses.
   */
  lemma {:induction false} MatchedGetsResult(parses: Parses, steps: seq<Step>, later: seq<Step>, packet: Packet)
    requires Run(parses, steps).receiver == Matching(packet) && packet.header.sequenceId as nat in Run(parses, steps).pending
    ensures Delivered(parses, Run(parses, steps + [Match] + later), packet.header.sequenceId as nat, packet)
  {
    AlwaysAccounted(parses, steps);
    if later == [] {
      RunNext(parses, steps, Match);
      assert steps + [Match] + later == steps + [Match];
      MatchTakesOwn(parses, Run(parses, steps), packet);
    } else {
      var front, last := later[..|later| - 1], later[|later| - 1];
      MatchedGetsResult(parses, steps, front, packet);
      AlwaysAccounted(parses, steps + [Match] + front);
      assert steps + [Match] + later == (steps + [Match] + front) + [last];
      RunNext(parses, steps + [Match] + front, last);
      DeliveredStep(parses, Run(parses, steps + [Match] + front), last, packet.header.sequenceId as nat, packet);
    }
  }

  lemma MatchTakesOwn(parses: Parses, s: State, packet: Packet)
    requires Accounted(s) && s.receiver == Matching(packet) && packet.header.sequenceId as nat in s.pending
    ensures Delivered(parses, Do(parses, s, Match), packet.header.sequenceId as nat, packet)
  {
  }

  /** The completion takes one step of the receiver, whatever is in between: the handover never stalls. */
  lemma CompletionIsOneStep(parses: Parses, steps: seq<Step>)
    requires Run(parses, steps).receiver.Completing?
    ensures var s := Run(parses, steps); var t := Run(parses, steps + [Complete]);
      s.receiver.id < |t.calls| && !t.receiver.Completing? && ResultOf(parses, s.receiver.id, s.receiver.packet.body, t.calls[s.receiver.id].promise)
  {
    AlwaysAccounted(parses, steps);
    RunNext(parses, steps, Complete);
    CompleteNow(parses, Run(parses, steps));
  }

  lemma CompleteNow(parses: Parses, s: State)
    requires s.receiver.Completing? && s.receiver.id < |s.calls|
    ensures var t := Do(parses, s, Complete);
      && s.receiver.id < |t.calls| && !t.receiver.Completing?
      && ResultOf(parses, s.receiver.id, s.receiver.packet.body, t.calls[s.receiver.id].promise)
  {
  }

  /** A response for an id that is not in the table, a duplicate or unknown one, changes no call and no entry. */
  lemma StrayResponseIsIgnored(parses: Parses, steps: seq<Step>, packet: Packet)
    requires Run(parses, steps).receiver == Matching(packet) && packet.header.sequenceId as nat !in Run(parses, steps).pending
    ensures var s, t := Run(parses, steps), Run(parses, steps + [Match]);
      t.calls == s.calls && t.pending == s.pending && t.receiver.Decoding?
  {
    RunNext(parses, steps, Match);
  }

  predicate DoneReading(s: State) { !s.running && !s.receiver.Reading? }

  lemma DoneReadingStep(parses: Parses, s: State, step: Step)
    requires DoneReading(s)
    ensures DoneReading(Do(parses, s, step)) && Do(parses, s, step).received == s.received
  {
    if !Enabled(s, step) || step.Begin? {
    } else if Caller(step).Some? {
      CallerFrame(s, step);
    } else if OfDestructor(step) {
      DestructorFrame(s, step);
    } else {
      ReceiverDoneReading(parses, s, step);
    }
  }

  lemma ReceiverDoneReading(parses: Parses, s: State, step: Step)
    requires DoneReading(s) && OfReceiver(step) && Enabled(s, step)
    ensures DoneReading(DoReceiver(parses, s, step)) && DoReceiver(parses, s, step).received == s.received
  {
  }

  /** Once the running flag is down and the receiver is not inside a read, it never reads again. */
  lemma {:induction false} StoppedReadsNoMore(parses: Parses, steps: seq<Step>, later: seq<Step>)
    requires DoneReading(Run(parses, steps))
    ensures DoneReading(Run(parses, steps + later)) && Run(parses, steps + later).received == Run(parses, steps).received
  {
    if later == [] {
      assert steps + later == steps;
    } else {
      var front, last := later[..|later| - 1], later[|later| - 1];
      StoppedReadsNoMore(parses, steps, front);
      assert steps + later == (steps + front) + [last];
      RunNext(parses, steps + front, last);
      DoneReadingStep(parses, Run(parses, steps + front), last);
    }
  }

  /** Any cleanup leaves the table empty, and every call it found there abandoned for good. */
  lemma CleanupFailsAll(parses: Parses, steps: seq<Step>, cleanup: Step, later: seq<Step>, id: nat)
    requires (cleanup.CleanUp? || cleanup.DestroyCleanUp?) && Enabled(Run(parses, steps), cleanup)
    requires id in Run(parses, steps).pending
    ensures Run(parses, steps + [cleanup]).pending == {}
    ensures var t := Run(parses, steps + [cleanup] + later); id < |t.calls| && t.calls[id].promise == Some(Abandoned)
  {
    AlwaysAccounted(parses, steps);
    RunNext(parses, steps, cleanup);
    CleanupNow(parses, Run(parses, steps), cleanup, id);
    ResultIsFinal(parses, steps + [cleanup], later, id);
  }

  lemma CleanupNow(parses: Parses, s: State, cleanup: Step, id: nat)
    requires Accounted(s) && (cleanup.CleanUp? || cleanup.DestroyCleanUp?) && Enabled(s, cleanup) && id in s.pending
    ensures var t := Do(parses, s, cleanup); t.pending == {} && id < |t.calls| && t.calls[id].promise == Some(Abandoned)
  {
  }

  /**
   * Once the destructor's final cleanup has run, the table is empty and every call that was ever
   * registered has a result or has withdrawn itself; no later step changes that.
   */
  lemma TeardownLeavesNobodyWaiting(parses: Parses, steps: seq<Step>, later: seq<Step>)
    requires Run(parses, steps).destructor.CleanedUp?
    ensures var s := Run(parses, steps + later);
      && s.pending == {} && !s.running
      && (forall id :: 0 <= id < |s.calls| && WasRegistered(s.calls[id]) ==>
        s.calls[id].promise.Some? || s.calls[id].pc.Withdrawn?)
  {
    StaysCleanedUp(parses, steps, later);
    AlwaysAccounted(parses, steps + later);
    AlwaysMatched(parses, steps + later);
    var s := Run(parses, steps + later);
    forall id | 0 <= id < |s.calls| && WasRegistered(s.calls[id])
      ensures s.calls[id].promise.Some? || s.calls[id].pc.Withdrawn?
    {
      assert CallOk(s, id);
    }
  }

  lemma {:induction false} StaysCleanedUp(parses: Parses, steps: seq<Step>, later: seq<Step>)
    requires Run(parses, steps).destructor.CleanedUp?
    ensures Run(parses, steps + later).destructor.CleanedUp?
  {
    if later == [] {
      assert steps + later == steps;
    } else {
      var front, last := later[..|later| - 1], later[|later| - 1];
      StaysCleanedUp(parses, steps, front);
      assert steps + later == (steps + front) + [last];
      OneStepLater(parses, steps + front, last);
    }
  }

  lemma OneStepLater(parses: Parses, steps: seq<Step>, step: Step)
    requires Run(parses, steps).destructor.CleanedUp?
    ensures Run(parses, steps + [step]).destructor.CleanedUp?
  {
    RunNext(parses, steps, step);
    CleanedUpStays(parses, Run(parses, steps), step);
  }

  lemma CleanedUpStays(parses: Parses, s: State, step: Step)
    requires s.destructor.CleanedUp?
    ensures Do(parses, s, step).destructor.CleanedUp?
  {
    if Enabled(s, step) {
      if Caller(step).Some? {
        CallerFrame(s, step);
      } else if OfReceiver(step) {
        ReceiverFrame(parses, s, step);
      }
    }
  }

  /** Some write so far failed with a part of its frame already on the wire. */
  ghost predicate FailedInsideFrame(parses: Parses, steps: seq<Step>) {
    exists i {:trigger steps[i]} :: 0 <= i < |steps| && steps[i].WriteFails?
      && Enabled(Run(parses, steps[..i]), steps[i]) && Run(parses, steps[..i]).calls[steps[i].id].pc.sent > 0
  }

  lemma TornStep(parses: Parses, s: State, step: Step)
    requires !s.torn && Do(parses, s, step).torn
    ensures Enabled(s, step) && step.WriteFails? && s.calls[step.id].pc.sent > 0
  {
    if Enabled(s, step) && OfReceiver(step) {
      ReceiverFrame(parses, s, step);
    } else if Enabled(s, step) && OfDestructor(step) {
      DestructorFrame(s, step);
    }
  }

  /** The wire counts as torn only if a write failed inside a frame, so only then does `WireDecodes` say nothing. */
  lemma {:induction false} TornOnlyInsideFrame(parses: Parses, steps: seq<Step>)
    requires Run(parses, steps).torn
    ensures FailedInsideFrame(parses, steps)
  {
    if steps != [] {
      var front, last := steps[..|steps| - 1], steps[|steps| - 1];
      assert steps == front + [last] && steps[..|front|] == front;
      RunNext(parses, front, last);
      if Run(parses, front).torn {
        TornOnlyInsideFrame(parses, front);
        var i :| 0 <= i < |front| && front[i].WriteFails? && Enabled(Run(parses, front[..i]), front[i])
                 && Run(parses, front[..i]).calls[front[i].id].pc.sent > 0;
        assert steps[i] == front[i] && steps[..i] == front[..i];
      } else {
        TornStep(parses, Run(parses, front), last);
        assert steps[|front|] == last;
      }
    }
  }

  /** The requests whose last byte the kernel has taken, and what follows them on the wire. */
  function Whole(s: State): seq<Message> {
    if FullyWritten(s) then s.written + [s.calls[s.sendOwner.value].request.value] else s.written
  }

  function Unfinished(s: State): Bytes { if FullyWritten(s) then [] else Partial(s) }

  predicate FullyWritten(s: State) {
    s.sendOwner.Some? && s.sendOwner.value < |s.calls| && WrittenWhole(s.calls[s.sendOwner.value])
  }

  predicate WrittenWhole(c: Call) { c.pc.Writing? && c.request.Some? && c.pc.sent == |c.frame| }

  /**
   * As long as no write failed inside a frame, a server reading the client's wire, in whatever
   * chunks, sees exactly the requests written whole, in lock order, and at most a proper prefix of
   * the one being written.
   */
  lemma WireDecodes(parses: Parses, steps: seq<Step>, chunks: seq<Bytes>)
    requires var s := Run(parses, steps); !s.torn && Concat(chunks) == s.wire
    ensures var s := Run(parses, steps); FeedAll(All(), chunks) == Session(Packets(Whole(s)), Unfinished(s), false)
  {
    var s := Run(parses, steps);
    AlwaysFramed(parses, steps);
    ChunkingIndependence(All(), chunks);
    if s.sendOwner.None? {
      WholeDecodes(s.written);
      assert EncodedAll(s.written) + [] == EncodedAll(s.written);
    } else {
      var id := s.sendOwner.value;
      assert RequestOk(s, id);
      OwnerDecodes(s.written, s.calls[id].request.value, s.calls[id].frame, s.calls[id].pc.sent);
    }
  }

  lemma OwnerDecodes(written: seq<Message>, m: Message, frame: Bytes, sent: nat)
    requires (forall w :: w in written ==> w.Fits()) && m.Fits() && frame == m.Encoded() && sent <= |frame|
    ensures Consume(All(), EncodedAll(written) + frame[..sent]) ==
      if sent < |frame| then RpcFraming.Outcome(Packets(written), frame[..sent], false)
      else RpcFraming.Outcome(Packets(written + [m]), [], false)
  {
    if sent < |frame| {
      EncodedStreamDecodes(All(), written, m, sent);
    } else {
      EncodedSnoc(written, m);
      WholeDecodes(written + [m]);
      assert frame[..sent] == frame;
    }
  }

  lemma WholeDecodes(written: seq<Message>)
    requires forall w :: w in written ==> w.Fits()
    ensures Consume(All(), EncodedAll(written)) == RpcFraming.Outcome(Packets(written), [], false)
  {
    var any := Message(RpcMessageType.Request, 0, [], []);
    var none := any.Encoded()[..0];
    EncodedStreamDecodes(All(), written, any, 0);
    assert none == [];
    assert EncodedAll(written) + none == EncodedAll(written);
  }
}
