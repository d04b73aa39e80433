/**
 * The hand-off of tasks to the event loop, as atomic steps of the loop thread and of any number of
 * other threads: push under the mutex, eventfd write, poll return, eventfd read, swap, run one.
 */
module LoopProtocol {
  import opened Common
  import opened Paths

  type Task = nat      // the identity of one functor
  type ThreadId = nat

  const EVENTFD_MAX: nat := 0xffff_ffff_ffff_fffe

  /** Where the loop thread is. */
  datatype Pc =
    | AtCheck                     // about to test the quit flag
    | Polling                     // in poll, possibly blocked
    | Handling(wakeReady: bool)   // dispatching active channels; is the wakeup channel still to come?
    | Swapping                    // the calling flag is up, the queue not yet taken
    | Running                     // executing the batch
    | SelfWaking                  // a running task has pushed, and is about to write the eventfd
    | Exited

  datatype State = State(
    pc: Pc,
    pending: seq<Task>,
    batch: seq<Task>,
    calling: bool,
    quit: bool,
    counter: nat,               // the eventfd
    wakers: set<ThreadId>,      // threads between their push and their eventfd write
    quitters: set<ThreadId>,    // threads between setting the quit flag and their eventfd write
    pushed: seq<Task>,          // history: every push, in order
    executed: seq<Task>,        // history: every task started, in order
    polls: nat,                 // history: how often poll returned
    due: nat)                   // history: how many pushes had happened when it last did
  {
    predicate Blocked() { pc.Polling? && counter == 0 }

    function Written(): nat { if counter < EVENTFD_MAX then counter + 1 else counter }
  }

  datatype Step =
    | Push(thread: ThreadId, task: Task)
    | Wake(thread: ThreadId)
    | SetQuit(thread: ThreadId)
    | WakeForQuit(thread: ThreadId)
    | PassCheck
    | PollReturns(reported: bool)
    | ReadWakeup
    | SelfPush(task: Task)
    | SelfWake
    | SelfQuit
    | FinishHandling
    | Swap
    | RunOne
    | FinishBatch

  predicate External(step: Step) {
    step.Push? || step.Wake? || step.SetQuit? || step.WakeForQuit?
  }

  predicate Enabled(s: State, step: Step) {
    match step
    case Push(t, _) => t !in s.wakers && t !in s.quitters
    case Wake(t) => t in s.wakers
    case SetQuit(t) => t !in s.wakers && t !in s.quitters
    case WakeForQuit(t) => t in s.quitters
    case PassCheck => s.pc.AtCheck?
    case PollReturns(_) => s.pc.Polling?
    case ReadWakeup => s.pc == Handling(true)
    case SelfPush(_) => s.pc.Handling? || s.pc.Running?
    case SelfWake => s.pc.SelfWaking?
    case SelfQuit => s.pc.Handling? || s.pc.Running?
    case FinishHandling => s.pc == Handling(false)
    case Swap => s.pc.Swapping?
    case RunOne => s.pc.Running? && s.batch != []
    case FinishBatch => s.pc.Running? && s.batch == []
  }

  /** The effect of one step; a step that is not enabled does nothing. */
  function Do(s: State, step: Step): State {
    if !Enabled(s, step) then s else
      match step
      case Push(t, task) => s.(pending := s.pending + [task], pushed := s.pushed + [task], wakers := s.wakers + {t})
      case Wake(t) => s.(counter := s.Written(), wakers := s.wakers - {t})
      case SetQuit(t) => s.(quit := true, quitters := s.quitters + {t})
      case WakeForQuit(t) => s.(counter := s.Written(), quitters := s.quitters - {t})
      case PassCheck => s.(pc := if s.quit then Exited else Polling)
      case PollReturns(reported) =>
        s.(pc := Handling(reported && s.counter > 0), polls := s.polls + 1, due := |s.pushed|)
      case ReadWakeup => s.(pc := Handling(false), counter := 0)
      case SelfPush(task) =>
        s.(pending := s.pending + [task], pushed := s.pushed + [task], pc := if s.calling then SelfWaking else s.pc)
      case SelfWake => s.(pc := Running, counter := s.Written())
      case SelfQuit => s.(quit := true)
      case FinishHandling => s.(pc := Swapping, calling := true)
      case Swap => s.(pc := Running, batch := s.pending, pending := [])
      case RunOne => s.(batch := s.batch[1..], executed := s.executed + [s.batch[0]])
      case FinishBatch => s.(pc := AtCheck, calling := false)
  }

  /** `loop()` is entered with an empty queue; the eventfd may have been written before. */
  function Start(counter: nat): State {
    State(AtCheck, [], [], false, false, counter, {}, {}, [], [], 0, 0)
  }

  /** The state after any interleaving of steps. */
  function Run(s: State, steps: seq<Step>): State {
    if steps == [] then s else Do(Run(s, steps[..|steps| - 1]), steps[|steps| - 1])
  }

  lemma {:induction false} PathIsRun(start: State, states: seq<State>, steps: seq<Step>)
    requires Path(Do, start, states, steps)
    ensures states[|steps|] == Run(start, steps)
  {
    if steps != [] {
      PathFront(Do, start, states, steps);
      PathIsRun(start, states[..|steps|], steps[..|steps| - 1]);
    }
  }

  /** Tasks come out in the order they went in, none twice, none lost. */
  ghost predicate Fifo(s: State) {
    && s.executed + s.batch + s.pending == s.pushed
    && (s.batch != [] ==> s.pc.Running? || s.pc.SelfWaking?)
    && (s.calling <==> s.pc.Swapping? || s.pc.Running? || s.pc.SelfWaking?)
  }

  /** Whoever could leave the loop asleep over a task, or over a quit, has still to write the eventfd. */
  ghost predicate NoLostWakeup(s: State) {
    && (s.pending != [] && (s.pc.AtCheck? || s.pc.Polling? || s.pc.Running?) ==> s.counter > 0 || s.wakers != {})
    && (s.quit && s.pc.Polling? ==> s.counter > 0 || s.quitters != {})
  }

  /** What had been pushed when poll last returned has been taken up. */
  ghost predicate Caught(s: State) {
    && s.due <= |s.pushed|
    && (s.pc.Running? || s.pc.SelfWaking? || s.pc.AtCheck? || s.pc.Polling? || s.pc.Exited? ==>
        s.due <= |s.executed| + |s.batch|)
  }

  ghost predicate Inv(s: State) { Fifo(s) && NoLostWakeup(s) && Caught(s) }

  lemma InvStep(s: State, step: Step)
    requires Inv(s)
    ensures Inv(Do(s, step))
  {
    if Enabled(s, step) {
      match step
      case Push(t, task) =>
        assert (s.executed + s.batch + s.pending) + [task] == s.executed + s.batch + (s.pending + [task]);
        assert t in Do(s, step).wakers;
      case SetQuit(t) =>
        assert t in Do(s, step).quitters;
      case SelfPush(task) =>
        assert (s.executed + s.batch + s.pending) + [task] == s.executed + s.batch + (s.pending + [task]);
      case RunOne =>
        assert (s.executed + [s.batch[0]]) + s.batch[1..] == s.executed + s.batch;
      case _ =>
    }
  }

  /** Over all interleavings of any number of threads, every reachable state is good. */
  lemma {:induction false} AlwaysInv(counter: nat, steps: seq<Step>)
    ensures Inv(Run(Start(counter), steps))
  {
    if steps != [] {
      AlwaysInv(counter, steps[..|steps| - 1]);
      InvStep(Run(Start(counter), steps[..|steps| - 1]), steps[|steps| - 1]);
    }
  }

  /**
   * The guarantee as a caller needs it: the executed tasks are a prefix of the pushed ones, and a
   * loop blocked in poll over a pending task (or an outside quit) is about to be woken.
   */
  lemma WakeupGuarantee(counter: nat, steps: seq<Step>)
    ensures var s := Run(Start(counter), steps);
      && s.executed <= s.pushed
      && (s.pc.Polling? ==> s.executed + s.pending == s.pushed)
      && (s.Blocked() && s.pending != [] ==> s.wakers != {})
      && (s.Blocked() && s.quit ==> s.quitters != {})
  {
    AlwaysInv(counter, steps);
  }

  lemma {:induction false} RunAppend(s: State, a: seq<Step>, b: seq<Step>)
    ensures Run(s, a + b) == Run(Run(s, a), b)
  {
    if b == [] {
      assert a + b == a;
    } else {
      assert (a + b)[..|a + b| - 1] == a + b[..|b| - 1];
      RunAppend(s, a, b[..|b| - 1]);
    }
  }

  /** The tasks handed over in a run, in order: by any thread that is free to, or by the loop's own callbacks. */
  function TasksPushed(s: State, steps: seq<Step>): seq<Task> {
    if steps == [] then [] else
      var before, last := Run(s, steps[..|steps| - 1]), steps[|steps| - 1];
      TasksPushed(s, steps[..|steps| - 1]) +
      match last
      case Push(t, task) => if t in before.wakers || t in before.quitters then [] else [task]
      case SelfPush(task) => if before.pc.Handling? || before.pc.Running? then [task] else []
      case _ => []
  }

  /** No task handed over is dropped, and none is made up. */
  lemma {:induction false} PushedInOrder(s: State, steps: seq<Step>)
    ensures Run(s, steps).pushed == s.pushed + TasksPushed(s, steps)
  {
    if steps != [] {
      var front := steps[..|steps| - 1];
      PushedInOrder(s, front);
      PushesOne(Run(s, front), steps[|steps| - 1]);
    }
  }

  lemma PushesOne(s: State, step: Step)
    ensures Do(s, step).pushed == s.pushed + match step
      case Push(t, task) => if t in s.wakers || t in s.quitters then [] else [task]
      case SelfPush(task) => if s.pc.Handling? || s.pc.Running? then [task] else []
      case _ => []
  {
  }

  /** Exactly once and in order: what has run, what is being run and what waits are the tasks handed over. */
  lemma EveryTaskInOrder(counter: nat, steps: seq<Step>)
    ensures var s := Run(Start(counter), steps); s.executed + s.batch + s.pending == TasksPushed(Start(counter), steps)
  {
    AlwaysInv(counter, steps);
    PushedFromStart(counter, steps);
  }

  lemma PushedFromStart(counter: nat, steps: seq<Step>)
    ensures Run(Start(counter), steps).pushed == TasksPushed(Start(counter), steps)
  {
    PushedInOrder(Start(counter), steps);
    EmptyFront(TasksPushed(Start(counter), steps));
  }

  /** The flag is up, and the loop polls no more than it already does. */
  predicate Heeds(s: State, t: State) {
    t.quit && (t.pc.Polling? ==> s.pc.Polling?) && t.polls <= s.polls + (if s.pc.Polling? then 1 else 0)
    && (t.pc.Polling? ==> t.polls == s.polls)
  }

  lemma HeedsStep(s: State, t: State, step: Step)
    requires Heeds(s, t)
    ensures Heeds(s, Do(t, step))
  {
  }

  /** Once the quit flag is up it stays up, and the loop leaves at its next check: it never enters poll again. */
  lemma {:induction false} QuitIsHeeded(s: State, later: seq<Step>)
    requires s.quit
    ensures Heeds(s, Run(s, later))
    ensures Run(s, later).pc.AtCheck? ==> Do(Run(s, later), PassCheck).pc.Exited?
  {
    if later != [] {
      QuitIsHeeded(s, later[..|later| - 1]);
      HeedsStep(s, Run(s, later[..|later| - 1]), later[|later| - 1]);
    }
  }

  /** A call of `quit` that gets to its first statement is one: on another thread, or in the loop's own callbacks. */
  lemma QuitRaisesFlag(s: State, quit: Step, later: seq<Step>)
    requires (quit.SetQuit? && quit.thread !in s.wakers && quit.thread !in s.quitters) ||
             (quit.SelfQuit? && (s.pc.Handling? || s.pc.Running?))
    ensures Do(s, quit).quit && Heeds(Do(s, quit), Run(Do(s, quit), later))
    ensures quit.SetQuit? ==> quit.thread in Do(s, quit).quitters
  {
    QuitIsHeeded(Do(s, quit), later);
  }

  predicate WritesWakeup(step: Step) { step.Wake? || step.WakeForQuit? || step.SelfWake? }

  /** Once read, the eventfd stays quiet until somebody writes it. */
  lemma {:induction false} QuietUntilWritten(s: State, later: seq<Step>)
    requires s.pc == Handling(true) && forall step :: step in later ==> !WritesWakeup(step)
    ensures Run(Do(s, ReadWakeup), later).counter == 0
  {
    if later != [] {
      var front, last := later[..|later| - 1], later[|later| - 1];
      assert last in later && forall step :: step in front ==> step in later;
      QuietUntilWritten(s, front);
      OnlyWritersWrite(Run(Do(s, ReadWakeup), front), last);
    }
  }

  lemma OnlyWritersWrite(s: State, step: Step)
    requires !WritesWakeup(step)
    ensures Do(s, step).counter <= s.counter
  {
  }

  lemma {:induction false} PollsAndDue(s: State, steps: seq<Step>)
    ensures var t := Run(s, steps);
      s.pushed <= t.pushed && s.polls <= t.polls && (s.polls < t.polls ==> |s.pushed| <= t.due)
  {
    if steps != [] {
      PollsAndDue(s, steps[..|steps| - 1]);
      PollsAndDueStep(Run(s, steps[..|steps| - 1]), steps[|steps| - 1]);
    }
  }

  lemma PollsAndDueStep(s: State, step: Step)
    ensures var t := Do(s, step);
      && s.pushed <= t.pushed && s.polls <= t.polls
      && (if s.polls < t.polls then |s.pushed| <= t.due else s.due <= t.due)
  {
  }

  /** A task pushed before poll returns is executed before the loop can block again. */
  lemma NothingLeftBehind(counter: nat, before: seq<Step>, after: seq<Step>)
    ensures
      var s := Run(Start(counter), before);
      var t := Run(s, after);
      t.pc.Polling? && s.polls < t.polls ==> s.pushed <= t.executed
  {
    var s := Run(Start(counter), before);
    var t := Run(s, after);
    RunAppend(Start(counter), before, after);
    AlwaysInv(counter, before + after);
    PollsAndDue(s, after);
    if t.pc.Polling? && s.polls < t.polls {
      assert t.executed == t.pushed[..|t.executed|];
      assert s.pushed == t.pushed[..|s.pushed|];
    }
  }
}
