/**
 * The sharded connection table as atomic steps: every loop owns one shard, one counter is shared,
 * and shutting down runs a drain task on every loop. Any number of loops interleave with the main
 * thread and with whoever calls `stop`.
 */
module ShardProtocol {
  import opened Common
  import opened Paths

  type LoopId = nat

  datatype ServerState = Created | Running | Draining | Stopped

  /** Where a loop thread is; a connection in the middle of an operation is named. */
  datatype LoopPc =
    | Idle                        // at a task boundary
    | Configuring(c: ConnId)      // create_connection, past its first state check
    | Committed(c: ConnId)        // past its second state check
    | Inserted(c: ConnId)         // in the shard, not yet counted
    | Erased(c: ConnId)           // remove_connection: out of the shard, still counted
    | Sweeping                    // the drain task, holding the shutdown mutex
    | Subtracted(c: ConnId)       // the drain task: no longer counted, still in the shard
    | Notifying                   // the drain task: mutex released, about to notify

  datatype DrainTask = NotPosted | Posted | Done

  /** The main thread; it looks at the counter holding the mutex, and falls asleep and lets go of it in one. */
  datatype MainPc = Serving | Posting(next: nat) | Checking | Asleep | Finished

  /** What happened to a connection object: its loop, and how often the counter went up and down for it. */
  datatype Life = Life(loop: LoopId, added: nat, subtracted: nat)

  datatype State = State(
    shards: seq<set<ConnId>>,
    pcs: seq<LoopPc>,
    queued: seq<nat>,            // create_connection tasks waiting on each loop
    drains: seq<DrainTask>,
    count: int,                  // activeConnectionCount_
    server: ServerState,
    mutex: Option<LoopId>,
    main: MainPc,
    lives: seq<Life>)            // history, by connection
  {
    predicate Shaped() {
      |shards| == |pcs| == |queued| == |drains|
    }

    predicate At(l: LoopId) { Shaped() && l < |pcs| }

    function Goto(l: LoopId, pc: LoopPc): State
      requires At(l)
    {
      this.(pcs := pcs[l := pc])
    }

    function WithShard(l: LoopId, shard: set<ConnId>): State
      requires At(l)
    {
      this.(shards := shards[l := shard])
    }
  }

  datatype Step =
    | Accept(l: LoopId)
    | StartCreate(l: LoopId)
    | SecondCheck(l: LoopId)
    | Insert(l: LoopId)
    | CountUp(l: LoopId)
    | Close(l: LoopId, c: ConnId)
    | CountDown(l: LoopId)
    | StartDrain(l: LoopId)
    | DrainSubtract(l: LoopId, c: ConnId)
    | DrainErase(l: LoopId)
    | FinishDrain(l: LoopId)
    | Notify(l: LoopId)
    | Stop
    | LeaveLoop
    | PostDrain
    | CheckCount
    | SpuriousWakeup

  predicate Enabled(s: State, step: Step) {
    match step
    case Accept(l) => s.At(l) && s.main.Serving?
    case StartCreate(l) => s.At(l) && s.pcs[l].Idle? && s.queued[l] > 0
    case SecondCheck(l) => s.At(l) && s.pcs[l].Configuring?
    case Insert(l) => s.At(l) && s.pcs[l].Committed?
    case CountUp(l) => s.At(l) && s.pcs[l].Inserted? && s.pcs[l].c < |s.lives|
    case Close(l, c) => s.At(l) && s.pcs[l].Idle? && c < |s.lives| && s.lives[c].loop == l
    case CountDown(l) => s.At(l) && s.pcs[l].Erased? && s.pcs[l].c < |s.lives|
    case StartDrain(l) => s.At(l) && s.pcs[l].Idle? && s.drains[l].Posted? && s.mutex.None?
    case DrainSubtract(l, c) => s.At(l) && s.pcs[l].Sweeping? && c in s.shards[l] && c < |s.lives|
    case DrainErase(l) => s.At(l) && s.pcs[l].Subtracted?
    case FinishDrain(l) => s.At(l) && s.pcs[l].Sweeping? && s.shards[l] == {}
    case Notify(l) => s.At(l) && s.pcs[l].Notifying?
    case Stop => true
    case LeaveLoop => s.main.Serving?
    case PostDrain => s.main.Posting? && s.Shaped()
    case CheckCount => s.main.Checking? && s.mutex.None?
    case SpuriousWakeup => s.main.Asleep?
  }

  /** The effect of one step; a step that is not enabled does nothing. */
  function Do(s: State, step: Step): State {
    if !Enabled(s, step) then s else
      match step
      case Accept(l) =>
        if s.server.Running? then s.(queued := s.queued[l := s.queued[l] + 1]) else s
      case StartCreate(l) =>
        var dequeued := s.(queued := s.queued[l := s.queued[l] - 1]);
        if s.server.Running?
        then dequeued.(pcs := s.pcs[l := Configuring(|s.lives|)], lives := s.lives + [Life(l, 0, 0)])
        else dequeued
      case SecondCheck(l) => s.Goto(l, if s.server.Running? then Committed(s.pcs[l].c) else Idle)
      case Insert(l) => s.WithShard(l, s.shards[l] + {s.pcs[l].c}).Goto(l, Inserted(s.pcs[l].c))
      case CountUp(l) => CountOne(s, s.pcs[l].c).Goto(l, Idle)
      case Close(l, c) =>
        if c in s.shards[l] then s.WithShard(l, s.shards[l] - {c}).Goto(l, Erased(c)) else s
      case CountDown(l) => UncountOne(s, s.pcs[l].c).Goto(l, Idle)
      case StartDrain(l) => s.(mutex := Some(l)).Goto(l, Sweeping)
      case DrainSubtract(l, c) => UncountOne(s, c).Goto(l, Subtracted(c))
      case DrainErase(l) => s.WithShard(l, s.shards[l] - {s.pcs[l].c}).Goto(l, Sweeping)
      case FinishDrain(l) => s.(mutex := None, drains := s.drains[l := Done]).Goto(l, Notifying)
      case Notify(l) => s.(main := if s.main.Asleep? then Checking else s.main).Goto(l, Idle)
      case Stop => s.(server := if s.server.Running? then Draining else s.server)
      case LeaveLoop => s.(server := Draining, main := Posting(0))
      case PostDrain =>
        var next := s.main.next;
        if next < |s.drains| then s.(drains := s.drains[next := Posted], main := Posting(next + 1)) else s.(main := Checking)
      case CheckCount => s.(main := if s.count == 0 then Finished else Asleep)
      case SpuriousWakeup => s.(main := Checking)
  }

  function CountOne(s: State, c: ConnId): State
    requires c < |s.lives|
  {
    s.(count := s.count + 1, lives := s.lives[c := s.lives[c].(added := s.lives[c].added + 1)])
  }

  function UncountOne(s: State, c: ConnId): State
    requires c < |s.lives|
  {
    s.(count := s.count - 1, lives := s.lives[c := s.lives[c].(subtracted := s.lives[c].subtracted + 1)])
  }

  /** A server just started on `n` loops. */
  function Start(n: nat): State {
    State(seq(n, _ => {}), seq(n, _ => Idle), seq(n, _ => 0), seq(n, _ => NotPosted), 0, Running, None, Serving, [])
  }

  function Run(n: nat, steps: seq<Step>): State {
    if steps == [] then Start(n) else Do(Run(n, steps[..|steps| - 1]), steps[|steps| - 1])
  }

  lemma {:induction false} PathIsRun(n: nat, states: seq<State>, steps: seq<Step>)
    requires Path(Do, Start(n), states, steps)
    ensures states[|steps|] == Run(n, steps)
  {
    if steps != [] {
      PathFront(Do, Start(n), states, steps);
      PathIsRun(n, states[..|steps|], steps[..|steps| - 1]);
    }
  }

  lemma RunNext(n: nat, steps: seq<Step>, step: Step)
    ensures Run(n, steps + [step]) == Do(Run(n, steps), step)
  {
    assert (steps + [step])[..|steps|] == steps;
  }
}
