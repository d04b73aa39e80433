/**
 * The client's multiplexed connection as atomic steps: any number of calling threads, the receiver
 * thread and the destructor, against a peer that sends whatever bytes it likes.
 */
module ChannelProtocol {
  import opened Common
  import opened BinaryRpcCodec
  import opened RpcFraming
  import opened Paths

  /** Whether a body parses as the response message a call expects. */
  type Parses = (nat, Bytes) -> bool

  /** The value or exception a call's promise was given. */
  datatype CallResult = Answered(body: Bytes) | Unparsable(body: Bytes) | Abandoned

  /** Where a calling thread is inside `CallMethod`. */
  datatype CallPc =
    | Allocated            // has its sequence id
    | Registered           // in the table, encoding its request
    | Encoded              // waiting for the send lock
    | Writing(sent: nat)   // holds the send lock
    | Waiting              // blocked on its future
    | Withdrawing          // unwinding: about to take itself out of the table
    | Refused              // found the channel closed; never registered
    | Withdrawn            // rethrew after taking itself out
    | Returned             // the future delivered

  datatype Call = Call(
    pc: CallPc, request: Option<Message>, frame: Bytes, promise: Option<CallResult>, completions: nat)

  datatype ReceiverPc =
    | AtTop                                     // outer loop test
    | Reading
    | Decoding                                  // inner loop test
    | Matching(packet: Packet)                  // a response decoded, not yet looked up
    | Completing(id: nat, packet: Packet)       // its context taken out of the table
    | CleaningUp(corrupt: bool)
    | Stopping                                  // about to clear the running flag
    | Exited

  datatype DestructorPc = NotDestroyed | FlagCleared | Joined | CleanedUp

  datatype State = State(
    calls: seq<Call>,             // by sequence id; id 0 is never used
    pending: set<nat>,            // the keys of the pending table
    running: bool,
    sendOwner: Option<nat>,       // who holds the send lock
    wire: Bytes,                  // what the kernel took
    written: seq<Message>,        // history: the requests written completely, in lock order
    torn: bool,                   // history: a write failed inside a frame
    receiver: ReceiverPc,
    readBuf: Bytes,
    received: Bytes,              // history: every byte read
    packets: seq<Packet>,         // history: every response decoded
    destructor: DestructorPc)
  {
    predicate Has(id: nat) { 0 < id < |calls| }

    function With(id: nat, c: Call): State
      requires id < |calls|
    {
      this.(calls := calls[id := c])
    }

    function Move(id: nat, pc: CallPc): State
      requires id < |calls|
    {
      With(id, calls[id].(pc := pc))
    }
  }

  datatype Step =
    | Begin
    | Register(id: nat)
    | Encode(id: nat, meta: Bytes, body: Bytes)
    | EncodeThrows(id: nat)
    | TakeSendLock(id: nat)
    | WriteSome(id: nat, n: nat)
    | WriteFails(id: nat)
    | ReleaseSendLock(id: nat)
    | Withdraw(id: nat)
    | Resume(id: nat)
    | TestOuter
    | ReadData(data: Bytes)
    | ReadInterrupted
    | ReadEnds
    | DecodeNext
    | Match
    | Complete
    | CleanUp
    | ClearRunning
    | DestroyFlag
    | DestroyJoin
    | DestroyCleanUp

  const ID_LIMIT: nat := 0x1_0000_0000_0000_0000

  predicate Enabled(s: State, step: Step) {
    match step
    case Begin => |s.calls| < ID_LIMIT
    case Register(id) => s.Has(id) && s.calls[id].pc.Allocated?
    case Encode(id, meta, body) => s.Has(id) && s.calls[id].pc.Registered? && |meta| < TWO_32 && |body| < TWO_32 && id < ID_LIMIT
    case EncodeThrows(id) => s.Has(id) && s.calls[id].pc.Registered?
    case TakeSendLock(id) => s.Has(id) && s.calls[id].pc.Encoded? && s.sendOwner.None?
    case WriteSome(id, n) => s.Has(id) && s.calls[id].pc.Writing? && n > 0 && s.calls[id].pc.sent + n <= |s.calls[id].frame|
    case WriteFails(id) => s.Has(id) && s.calls[id].pc.Writing? && s.calls[id].pc.sent < |s.calls[id].frame|
    case ReleaseSendLock(id) => s.Has(id) && s.calls[id].pc.Writing? && s.calls[id].pc.sent == |s.calls[id].frame|
    case Withdraw(id) => s.Has(id) && s.calls[id].pc.Withdrawing?
    case Resume(id) => s.Has(id) && s.calls[id].pc.Waiting? && s.calls[id].promise.Some?
    case TestOuter => s.receiver.AtTop?
    case ReadData(data) => s.receiver.Reading? && data != []
    case ReadInterrupted => s.receiver.Reading?
    case ReadEnds => s.receiver.Reading?
    case DecodeNext => s.receiver.Decoding?
    case Match => s.receiver.Matching?
    case Complete => s.receiver.Completing?
    case CleanUp => s.receiver.CleaningUp?
    case ClearRunning => s.receiver.Stopping?
    case DestroyFlag => s.destructor.NotDestroyed?
    case DestroyJoin => s.destructor.FlagCleared? && s.receiver.Exited?
    case DestroyCleanUp => s.destructor.Joined?
  }

  /** Every pending promise gets an exception and the table is emptied, under one lock. */
  function AbandonAll(s: State): State {
    s.(calls := seq(|s.calls|, id requires 0 <= id < |s.calls| =>
         if id in s.pending then Settle(s.calls[id], Abandoned) else s.calls[id]),
       pending := {})
  }

  function Settle(c: Call, o: CallResult): Call {
    c.(promise := Some(o), completions := c.completions + 1)
  }

  /** The call a step of a calling thread belongs to. */
  function Caller(step: Step): Option<nat> {
    match step
    case Register(id) => Some(id)
    case Encode(id, _, _) => Some(id)
    case EncodeThrows(id) => Some(id)
    case TakeSendLock(id) => Some(id)
    case WriteSome(id, _) => Some(id)
    case WriteFails(id) => Some(id)
    case ReleaseSendLock(id) => Some(id)
    case Withdraw(id) => Some(id)
    case Resume(id) => Some(id)
    case _ => None
  }

  predicate OfDestructor(step: Step) { step.DestroyFlag? || step.DestroyJoin? || step.DestroyCleanUp? }

  predicate OfReceiver(step: Step) { Caller(step).None? && !step.Begin? && !OfDestructor(step) }

  /** The effect of one step; a step that is not enabled does nothing. */
  function Do(parses: Parses, s: State, step: Step): State {
    if !Enabled(s, step) then s
    else if step.Begin? then DoBegin(s)
    else if Caller(step).Some? then DoCaller(s, step)
    else if OfDestructor(step) then DoDestructor(s, step)
    else DoReceiver(parses, s, step)
  }

  /** A call takes the next sequence id. */
  function DoBegin(s: State): State { s.(calls := s.calls + [Call(Allocated, None, [], None, 0)]) }

  /** A step of a calling thread. */
  function DoCaller(s: State, step: Step): State
    requires Enabled(s, step)
  {
    match step
    case Register(id) =>
      if s.running then s.Move(id, Registered).(pending := s.pending + {id}) else s.Move(id, Refused)
    case Encode(id, meta, body) =>
      var m := Message(RpcMessageType.Request, id, meta, body);
      s.With(id, s.calls[id].(pc := Encoded, request := Some(m), frame := m.Encoded()))
    case EncodeThrows(id) => s.Move(id, Withdrawing)
    case TakeSendLock(id) => s.Move(id, Writing(0)).(sendOwner := Some(id))
    case WriteSome(id, n) =>
      var sent := s.calls[id].pc.sent;
      s.Move(id, Writing(sent + n)).(wire := s.wire + s.calls[id].frame[sent..sent + n])
    case WriteFails(id) =>
      s.Move(id, Withdrawing).(sendOwner := None, torn := s.torn || s.calls[id].pc.sent > 0)
    case ReleaseSendLock(id) =>
      s.Move(id, Waiting).(sendOwner := None, written :=
        if s.calls[id].request.Some? then s.written + [s.calls[id].request.value] else s.written)
    case Withdraw(id) => s.Move(id, Withdrawn).(pending := s.pending - {id})
    case Resume(id) => s.Move(id, Returned)
    case _ => s
  }

  /** A step of the receiver thread. */
  function DoReceiver(parses: Parses, s: State, step: Step): State
    requires Enabled(s, step)
  {
    match step
    case TestOuter => s.(receiver := if s.running then Reading else Exited)
    case ReadData(data) => s.(receiver := Decoding, readBuf := s.readBuf + data, received := s.received + data)
    case ReadInterrupted => s.(receiver := AtTop)
    case ReadEnds => s.(receiver := CleaningUp(false))
    case DecodeNext => DoDecode(s)
    case Match =>
      var id := s.receiver.packet.header.sequenceId;
      if id in s.pending
      then s.(receiver := Completing(id, s.receiver.packet), pending := s.pending - {id})
      else s.(receiver := Decoding)
    case Complete =>
      var body := s.receiver.packet.body;
      if s.receiver.id < |s.calls|
      then s.With(s.receiver.id, Settle(s.calls[s.receiver.id], if parses(s.receiver.id, body) then Answered(body) else Unparsable(body)))
            .(receiver := Decoding)
      else s
    case CleanUp => AbandonAll(s).(receiver := if s.receiver.corrupt then Stopping else Exited)
    case ClearRunning => s.(running := false, receiver := AtTop)
    case _ => s
  }

  function DoDestructor(s: State, step: Step): State {
    match step
    case DestroyFlag => s.(running := false, destructor := FlagCleared)
    case DestroyJoin => s.(destructor := Joined)
    case DestroyCleanUp => AbandonAll(s).(destructor := CleanedUp)
    case _ => s
  }

  function DoDecode(s: State): State {
    if !s.running then s.(receiver := AtTop) else
      match ParseFrame(s.readBuf)
      case Empty => s.(receiver := AtTop)
      case HalfPack => s.(receiver := AtTop)
      case Corrupt => s.(receiver := CleaningUp(true))
      case Frame(h, m, b) =>
        PrefixStable(s.readBuf, []);
        s.(receiver := Matching(Packet(h, m, b)), readBuf := s.readBuf[h.PacketSize()..],
           packets := s.packets + [Packet(h, m, b)])
  }

  /** A freshly connected channel. */
  function Start(): State {
    State([Call(Refused, None, [], None, 0)], {}, true, None, [], [], false, AtTop, [], [], [], NotDestroyed)
  }

  function Run(parses: Parses, steps: seq<Step>): State {
    if steps == [] then Start() else Do(parses, Run(parses, steps[..|steps| - 1]), steps[|steps| - 1])
  }

  /** `Do` for one kind of response. */
  function Next(parses: Parses): (State, Step) -> State { (s, step) => Do(parses, s, step) }

  lemma {:induction false} PathIsRun(parses: Parses, states: seq<State>, steps: seq<Step>)
    requires Path(Next(parses), Start(), states, steps)
    ensures states[|steps|] == Run(parses, steps)
  {
    if steps != [] {
      PathFront(Next(parses), Start(), states, steps);
      PathIsRun(parses, states[..|steps|], steps[..|steps| - 1]);
    }
  }

  lemma RunNext(parses: Parses, steps: seq<Step>, step: Step)
    ensures Run(parses, steps + [step]) == Do(parses, Run(parses, steps), step)
  {
    assert (steps + [step])[..|steps|] == steps;
  }
}
