/**
 * The server's own code over its sharded connection table, section by section. Between any two
 * sections the other threads take as many steps as they like, so a run of this code is a run of the protocol.
 */
module TcpServers {
  import opened Common
  import opened ShardProtocol
  import opened ShardSafety
  import opened Paths

  datatype Actor = OnLoop(l: LoopId) | OnMain | Anyone

  /** The thread a step belongs to. */
  function ActorOf(step: Step): Actor {
    if LoopOf(step).Some? then OnLoop(LoopOf(step).value)
    else if step.Accept? || step.Stop? || step.SpuriousWakeup? then Anyone
    else OnMain
  }

  /** What the other threads leave alone while `me` is between two of its sections. */
  predicate KeepsMine(s: State, t: State, me: Actor) {
    && |t.pcs| == |s.pcs| && |s.lives| <= |t.lives| && (t.server.Running? ==> s.server.Running?)
    && (match me
        case OnLoop(l) => s.At(l) ==>
          && t.At(l) && t.pcs[l] == s.pcs[l] && t.shards[l] == s.shards[l]
          && (t.drains[l] == s.drains[l] || (s.drains[l].NotPosted? && t.drains[l].Posted?))
          && t.queued[l] >= s.queued[l]
          && (forall c: ConnId :: c < |s.lives| && s.lives[c].loop == l ==> t.lives[c] == s.lives[c])
        case OnMain => t.main == s.main || (s.main.Asleep? && t.main.Checking?)
        case Anyone => true)
  }

  lemma OthersKeepMine(s: State, step: Step, me: Actor)
    requires Inv(s) && ActorOf(step) != me
    ensures KeepsMine(s, Do(s, step), me)
  {
    match me
    case OnLoop(l) =>
      if s.At(l) { assert LoopOk(s, l); }
      if LoopOf(step).Some? {
        if s.At(LoopOf(step).value) { assert LoopOk(s, LoopOf(step).value); }
        OtherLoopsKeepMine(s, step, l);
      } else {
        MainKeepsLoop(s, step, l);
      }
    case _ =>
      MonotoneStep(s, step);
  }

  lemma MonotoneStep(s: State, step: Step)
    requires Inv(s)
    ensures var t := Do(s, step);
      && |t.pcs| == |s.pcs| && |s.lives| <= |t.lives| && (t.server.Running? ==> s.server.Running?)
      && (ActorOf(step) != OnMain ==> t.main == s.main || (s.main.Asleep? && t.main.Checking?))
  {
  }

  lemma OtherLoopsKeepMine(s: State, step: Step, l: LoopId)
    requires LoopOf(step).Some? && LoopOf(step).value != l
    requires s.At(LoopOf(step).value) ==> LoopOk(s, LoopOf(step).value)
    ensures KeepsMine(s, Do(s, step), OnLoop(l))
  {
    if Enabled(s, step) && !s.pcs[LoopOf(step).value].Idle? && !s.pcs[LoopOf(step).value].Sweeping? {
      var pc := s.pcs[LoopOf(step).value];
      assert !pc.Notifying? ==> Concerns(pc, pc.c);
    }
  }

  lemma MainKeepsLoop(s: State, step: Step, l: LoopId)
    requires Inv(s) && LoopOf(step).None? && (s.At(l) ==> LoopOk(s, l))
    ensures KeepsMine(s, Do(s, step), OnLoop(l))
  {
  }

  class TcpServer {
    const ioLoops: nat
    var s: State
    ghost var states: seq<State>    // every state so far
    ghost var trace: seq<Step>      // and the steps between them

    ghost predicate Valid()
      reads this
    {
      Path(Do, Start(ioLoops), states, trace) && s == states[|trace|]
    }

    /** What every reachable state keeps holds of the object. */
    lemma IsRun()
      requires Valid()
      ensures Inv(s) && |s.pcs| == ioLoops
    {
      PathIsRun(ioLoops, states, trace);
      AlwaysInv(ioLoops, trace);
    }

    /** A server whose loops are running and whose tables are set up. */
    constructor (n: nat)
      ensures Valid() && ioLoops == n && s == Start(n)
    {
      ioLoops, s, states, trace := n, Start(n), [Start(n)], [];
    }

    /** One atomic section of any thread; nothing if that thread is not at the right place for it. */
    method Take(step: Step)
      requires Valid()
      modifies this
      ensures Valid() && s == Do(old(s), step)
    {
      PathNext(Do, Start(ioLoops), states, trace, step);
      s := Do(s, step);
      states, trace := states + [s], trace + [step];
    }

    /** Any number of sections of threads other than `me`. */
    method Interfere(me: Actor)
      requires Valid()
      modifies this
      ensures Valid() && KeepsMine(old(s), s, me)
    {
      var steps: seq<Step> := *;
      for n := 0 to |steps|
        invariant Valid() && KeepsMine(old(s), s, me)
      {
        if ActorOf(steps[n]) != me {
          IsRun();
          OthersKeepMine(s, steps[n], me);
          Take(steps[n]);
        }
      }
    }

    /** The create task on loop `l`: the connection is registered and counted, or dropped at one of the two checks. */
    method CreateConnection(l: LoopId) returns (conn: Option<ConnId>)
      requires Valid() && s.At(l) && s.pcs[l].Idle? && s.queued[l] > 0
      modifies this
      ensures Valid() && s.At(l) && s.pcs[l].Idle?
      ensures match conn
        case Some(c) => old(s).server.Running? && s.shards[l] == old(s).shards[l] + {c} && c !in old(s).shards[l]
        case None => !s.server.Running? && s.shards[l] == old(s).shards[l]
    {
      conn := None;
      Take(StartCreate(l));
      Interfere(OnLoop(l));
      if s.pcs[l].Configuring? {
        Take(SecondCheck(l));
        Interfere(OnLoop(l));
        if s.pcs[l].Committed? {
          conn := Some(s.pcs[l].c);
          Register(l);
        }
      }
    }

    lemma NotYetThere(l: LoopId)
      requires Valid() && s.At(l) && s.pcs[l].Committed?
      ensures s.pcs[l].c < |s.lives| && s.lives[s.pcs[l].c].loop == l && s.pcs[l].c !in s.shards[l]
    {
      IsRun();
      assert LoopOk(s, l) && Concerns(s.pcs[l], s.pcs[l].c);
      assert ConnOk(s, s.pcs[l].c);
    }

    method Register(l: LoopId)
      requires Valid() && s.At(l) && s.pcs[l].Committed?
      modifies this
      ensures Valid() && s.At(l) && s.pcs[l].Idle?
      ensures s.shards[l] == old(s).shards[l] + {old(s).pcs[l].c} && old(s).pcs[l].c !in old(s).shards[l]
    {
      NotYetThere(l);
      Take(Insert(l));
      Interfere(OnLoop(l));
      Take(CountUp(l));
    }

    /** On its own loop a closed connection leaves the table, and the counter, if it is still there. */
    method RemoveConnection(l: LoopId, c: ConnId)
      requires Valid() && s.At(l) && s.pcs[l].Idle? && c < |s.lives| && s.lives[c].loop == l
      modifies this
      ensures Valid() && s.At(l) && s.pcs[l].Idle? && s.shards[l] == old(s).shards[l] - {c}
      ensures c < |s.lives| && s.lives[c].subtracted == s.lives[c].added == old(s).lives[c].added <= 1
    {
      Take(Close(l, c));
      if s.pcs[l].Erased? {
        Interfere(OnLoop(l));
        Take(CountDown(l));
      }
      IsRun();
      assert ConnOk(s, c);
    }

    /** The drain task on loop `l`: under the mutex, uncount and take out every record; then notify. */
    method DrainTask(l: LoopId) returns (ran: bool)
      requires Valid() && s.At(l) && s.pcs[l].Idle? && s.drains[l].Posted?
      modifies this
      ensures Valid() && s.At(l)
      ensures
        if ran then s.drains[l].Done? && s.shards[l] == {} && s.pcs[l].Idle? && !s.main.Asleep?
        else s.drains[l].Posted? && s.shards[l] == old(s).shards[l]
    {
      Interfere(OnLoop(l));
      if s.mutex.Some? {
        return false;
      }
      Take(StartDrain(l));
      Sweep(l);
      FinishAndNotify(l);
      ran := true;
    }

    method FinishAndNotify(l: LoopId)
      requires Valid() && s.At(l) && s.pcs[l].Sweeping? && s.shards[l] == {}
      modifies this
      ensures Valid() && s.At(l) && s.drains[l].Done? && s.shards[l] == {} && s.pcs[l].Idle? && !s.main.Asleep?
    {
      Take(FinishDrain(l));
      Interfere(OnLoop(l));
      Take(Notify(l));
    }

    method Sweep(l: LoopId)
      requires Valid() && s.At(l) && s.pcs[l].Sweeping?
      modifies this
      ensures Valid() && s.At(l) && s.pcs[l].Sweeping? && s.shards[l] == {}
    {
      while s.shards[l] != {}
        invariant Valid() && s.At(l) && s.pcs[l].Sweeping?
        decreases s.shards[l]
      {
        var c :| c in s.shards[l];
        IsRun();
        assert LoopOk(s, l);
        SweepOne(l, c);
      }
    }

    method SweepOne(l: LoopId, c: ConnId)
      requires Valid() && s.At(l) && s.pcs[l].Sweeping? && c in s.shards[l] && c < |s.lives|
      modifies this
      ensures Valid() && s.At(l) && s.pcs[l].Sweeping? && s.shards[l] == old(s).shards[l] - {c}
    {
      Take(DrainSubtract(l, c));
      Interfere(OnLoop(l));
      Take(DrainErase(l));
      Interfere(OnLoop(l));
    }

    /**
     * `shutdown_connections` on the main thread: posts every drain task, then waits for the counter,
     * woken at most `wakeups` times. Asleep at the end, it will still be notified.
     */
    method ShutdownConnections(wakeups: nat) returns (waited: bool)
      requires Valid() && s.main.Serving?
      modifies this
      ensures Valid() && s.server.Draining?
      ensures forall l :: 0 <= l < ioLoops ==> s.At(l) && !s.drains[l].NotPosted?
      ensures waited ==> s.main.Finished? && s.count == 0 && (SomeCommitted(s) || AllEmpty(s))
      ensures s.Shaped() && (s.main.Asleep? ==> SomeoneNotifies(s))
    {
      Take(LeaveLoop);
      Interfere(OnMain);
      PostAll();
      waited := Wait(wakeups);
      IsRun();
      forall l | 0 <= l < ioLoops ensures !s.drains[l].NotPosted? { assert LoopOk(s, l); }
    }

    method PostAll()
      requires Valid() && s.main.Posting?
      modifies this
      ensures Valid() && s.main.Checking?
    {
      IsRun();
      while s.main.Posting?
        invariant Valid() && (s.main.Posting? || s.main.Checking?) && s.Shaped() && |s.drains| == ioLoops
        invariant s.main.Posting? ==> s.main.next <= ioLoops
        decreases s.main.Posting?, if s.main.Posting? then ioLoops - s.main.next else 0
      {
        Take(PostDrain);
        Interfere(OnMain);
        IsRun();
      }
    }

    /** The wait on the condition variable: looks at the counter whenever it is awake and gets the mutex. */
    method Wait(wakeups: nat) returns (waited: bool)
      requires Valid() && s.main.Checking?
      modifies this
      ensures Valid() && (s.main.Finished? || s.main.Checking? || s.main.Asleep?)
      ensures waited ==> s.main.Finished? && s.count == 0 && (SomeCommitted(s) || AllEmpty(s))
    {
      waited := false;
      var turn := 0;
      while turn <= wakeups && !waited
        invariant Valid() && (if waited then s.main.Finished? else s.main.Checking? || s.main.Asleep?)
        invariant waited ==> s.count == 0 && (SomeCommitted(s) || AllEmpty(s))
        decreases wakeups + 1 - turn, !waited
      {
        Interfere(OnMain);
        waited := Look();
        turn := turn + 1;
      }
    }

    method Look() returns (waited: bool)
      requires Valid() && (s.main.Checking? || s.main.Asleep?)
      modifies this
      ensures Valid() && (if waited then s.main.Finished? else s.main.Checking? || s.main.Asleep?)
      ensures waited ==> s.count == 0 && (SomeCommitted(s) || AllEmpty(s))
    {
      IsRun();
      waited := MayReturn(s);
      if waited && !SomeCommitted(s) { WaitSeesQuiet(s); }
      Take(CheckCount);
    }
  }
}
