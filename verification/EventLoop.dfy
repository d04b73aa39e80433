/**
 * The event loop's own code, section by section. Between any two sections the other threads take as
 * many steps as they like, so every run of this code is a run of the protocol.
 */
module EventLoops {
  import opened LoopProtocol
  import opened Paths

  /** What a callback does to the loop it runs on. */
  datatype Action = Queue(task: Task) | RequestQuit

  class EventLoop {
    var s: State
    ghost const counterAtEntry: nat
    ghost var states: seq<State>    // every state so far
    ghost var trace: seq<Step>      // and the steps between them

    ghost predicate Valid()
      reads this
    {
      Path(Do, Start(counterAtEntry), states, trace) && s == states[|trace|]
    }

    /** What every reachable state keeps holds of the object. */
    lemma IsRun()
      requires Valid()
      ensures Inv(s)
    {
      PathIsRun(Start(counterAtEntry), states, trace);
      AlwaysInv(counterAtEntry, trace);
    }

    constructor (counter: nat)
      ensures Valid() && s == Start(counter)
    {
      s, counterAtEntry, states, trace := Start(counter), counter, [Start(counter)], [];
    }

    /** One atomic section of any thread; nothing if that thread is not at the right place for it. */
    method Take(step: Step)
      requires Valid()
      modifies this
      ensures Valid() && s == Do(old(s), step)
    {
      PathNext(Do, Start(counterAtEntry), states, trace, step);
      s := Do(s, step);
      states, trace := states + [s], trace + [step];
    }

    /** Any number of sections of other threads: they can push, quit and wake, and touch nothing else. */
    method Interfere()
      requires Valid()
      modifies this
      ensures Valid() && LoopSideUnchanged(old(s), s)
    {
      var steps: seq<Step> := *;
      for n := 0 to |steps|
        invariant Valid() && LoopSideUnchanged(old(s), s)
      {
        if External(steps[n]) {
          OthersLeaveLoopSide(s, steps[n]);
          Take(steps[n]);
        }
      }
    }

    /** `queue_in_loop` called on the loop's own thread, from a channel handler or a functor. */
    method QueueInLoop(cb: Task)
      requires Valid() && (s.pc.Handling? || s.pc.Running?)
      modifies this
      ensures Valid() && LoopSideUnchanged(old(s), s)
      ensures old(s).pushed + [cb] <= s.pushed
    {
      IsRun();
      Take(SelfPush(cb));
      Interfere();
      if s.calling {
        Take(SelfWake);
      }
    }

    /** `quit` called on the loop's own thread: no wakeup needed. */
    method Quit()
      requires Valid() && (s.pc.Handling? || s.pc.Running?)
      modifies this
      ensures Valid() && LoopSideUnchanged(old(s), s) && s.quit
    {
      Take(SelfQuit);
    }

    /** The body of some callback: an arbitrary list of actions, with other threads in between. */
    method RunCallback()
      requires Valid() && (s.pc.Handling? || s.pc.Running?)
      modifies this
      ensures Valid() && LoopSideUnchanged(old(s), s)
    {
      var actions: seq<Action> := *;
      for n := 0 to |actions|
        invariant Valid() && LoopSideUnchanged(old(s), s)
      {
        Interfere();
        match actions[n] {
          case Queue(task) => QueueInLoop(task);
          case RequestQuit => Quit();
        }
      }
      Interfere();
    }

    /** One turn's poll and channel handling, the wakeup channel's handler somewhere among the others. */
    method PollAndHandle()
      requires Valid() && s.pc.Polling?
      modifies this
      ensures Valid() && s.pc == Handling(false)
      ensures s.polls == old(s).polls + 1 && s.due >= |old(s).pushed| && s.executed == old(s).executed
      ensures old(s).pushed <= s.pushed
    {
      Interfere();
      var reported: bool := *;
      Take(PollReturns(reported));
      RunCallback();
      if s.pc.wakeReady {
        Take(ReadWakeup);
        RunCallback();
      }
    }

    /** Takes the queue in one section and runs it in order; everything due at the last poll is run. */
    method DoPendingFunctors()
      requires Valid() && s.pc == Handling(false)
      modifies this
      ensures Valid() && s.pc.AtCheck? && s.batch == []
      ensures s.polls == old(s).polls && s.due == old(s).due && s.due <= |s.executed| && old(s).pushed <= s.pushed
    {
      Take(FinishHandling);
      Interfere();
      Take(Swap);
      ghost var taken := s.executed + s.batch;
      while s.batch != []
        invariant Valid() && s.pc.Running? && s.polls == old(s).polls && s.due == old(s).due && old(s).pushed <= s.pushed
        invariant s.executed + s.batch == taken
        decreases |s.batch|
      {
        Take(RunOne);
        RunCallback();
      }
      Take(FinishBatch);
      IsRun();
    }

    /** `loop()`, for any number of turns. */
    method Loop(turns: nat)
      requires Valid() && s.pc.AtCheck?
      modifies this
      ensures Valid() && (s.pc.AtCheck? || s.pc.Exited?) && (s.pc.Exited? ==> s.quit)
      ensures s.executed <= s.pushed && s.executed + s.pending == s.pushed
      ensures turns > 0 && s.pc.AtCheck? ==> |old(s).pushed| <= |s.executed|
    {
      var turn := 0;
      Interfere();
      while turn < turns
        invariant Valid() && s.pc.AtCheck? && turn <= turns
        invariant old(s).pushed <= s.pushed
        invariant turn > 0 ==> |old(s).pushed| <= |s.executed|
      {
        Take(PassCheck);
        if s.quit {
          break;
        }
        PollAndHandle();
        DoPendingFunctors();
        Interfere();
        turn := turn + 1;
      }
      IsRun();
    }
  }

  lemma OthersLeaveLoopSide(s: State, step: Step)
    requires External(step)
    ensures LoopSideUnchanged(s, Do(s, step))
  {
  }

  /** What other threads, and the loop's own pushes, cannot touch. */
  ghost predicate LoopSideUnchanged(s: State, t: State) {
    LoopSideUnchangedBut(s, t, s.pc)
  }

  ghost predicate LoopSideUnchangedBut(s: State, t: State, pc: Pc) {
    && t.pc == pc && t.batch == s.batch && t.executed == s.executed && t.calling == s.calling
    && t.polls == s.polls && t.due == s.due && s.pushed <= t.pushed
  }
}
