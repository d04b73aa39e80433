/** What every interleaving of the sharded connection table keeps. */
module ShardSafety {
  import opened Common
  import opened ShardProtocol

  function Sum(terms: seq<int>): int {
    if terms == [] then 0 else Sum(terms[..|terms| - 1]) + terms[|terms| - 1]
  }

  lemma {:induction false} SumChange(terms: seq<int>, i: nat, v: int)
    requires i < |terms|
    ensures Sum(terms[i := v]) == Sum(terms) - terms[i] + v
  {
    var last := |terms| - 1;
    if i == last {
      assert terms[i := v][..last] == terms[..last];
    } else {
      assert terms[i := v][..last] == terms[..last][i := v];
      SumChange(terms[..last], i, v);
    }
  }

  lemma {:induction false} SumOfNats(terms: seq<int>)
    requires forall i :: 0 <= i < |terms| ==> terms[i] >= 0
    ensures Sum(terms) >= 0
    ensures Sum(terms) == 0 <==> forall i :: 0 <= i < |terms| ==> terms[i] == 0
  {
    if terms != [] {
      var front := terms[..|terms| - 1];
      SumOfNats(front);
      if forall i :: 0 <= i < |terms| ==> terms[i] == 0 {
        assert forall i :: 0 <= i < |front| ==> front[i] == terms[i];
      } else if Sum(terms) == 0 {
        forall i | 0 <= i < |terms| ensures terms[i] == 0 {
          if i < |front| { assert front[i] == 0; }
        }
      }
    }
  }

  /** How many of a loop's connections the counter includes. */
  function Counted(shard: set<ConnId>, pc: LoopPc): int {
    |shard| + match pc
              case Inserted(_) => -1
              case Subtracted(_) => -1
              case Erased(_) => 1
              case _ => 0
  }

  function Terms(s: State): seq<int>
    requires s.Shaped()
  {
    seq(|s.pcs|, l requires 0 <= l < |s.pcs| => Counted(s.shards[l], s.pcs[l]))
  }

  predicate Concerns(pc: LoopPc, c: ConnId) {
    !pc.Idle? && !pc.Sweeping? && !pc.Notifying? && pc.c == c
  }

  /** Each connection is counted up once and down once, by whoever takes it out of its shard. */
  predicate LifeOk(life: Life, c: ConnId, inShard: bool, pc: LoopPc) {
    if Concerns(pc, c) then
      match pc
      case Configuring(_) => !inShard && life.added == 0 && life.subtracted == 0
      case Committed(_) => !inShard && life.added == 0 && life.subtracted == 0
      case Inserted(_) => inShard && life.added == 0 && life.subtracted == 0
      case Erased(_) => !inShard && life.added == 1 && life.subtracted == 0
      case Subtracted(_) => inShard && life.added == 1 && life.subtracted == 1
      case _ => true
    else if inShard then life.added == 1 && life.subtracted == 0
    else life.added <= 1 && life.subtracted == life.added
  }

  predicate ConnOk(s: State, c: ConnId)
    requires s.Shaped() && c < |s.lives|
  {
    s.lives[c].loop < |s.pcs| && LifeOk(s.lives[c], c, c in s.shards[s.lives[c].loop], s.pcs[s.lives[c].loop])
  }

  /** A loop handles its own connections only, holds the mutex while sweeping, and is quiet after its drain. */
  ghost predicate LoopOk(s: State, l: LoopId)
    requires s.At(l)
  {
    && (forall c: ConnId :: c in s.shards[l] || Concerns(s.pcs[l], c) ==> c < |s.lives| && s.lives[c].loop == l)
    && (s.pcs[l].Sweeping? || s.pcs[l].Subtracted? <==> s.mutex == Some(l))
    && (!s.drains[l].NotPosted? ==> s.server.Draining?)
    && (s.drains[l].Done? ==> s.shards[l] == {} && (s.pcs[l].Idle? || s.pcs[l].Notifying?))
    && (s.pcs[l].Notifying? ==> s.drains[l].Done?)
    && (s.pcs[l].Sweeping? || s.pcs[l].Subtracted? ==> s.drains[l].Posted?)
    && (s.main.Serving? ==> s.drains[l].NotPosted?)
    && (s.main.Posting? ==> (s.drains[l].NotPosted? <==> s.main.next <= l))
    && (s.main.Checking? || s.main.Asleep? || s.main.Finished? ==> !s.drains[l].NotPosted?)
  }

  /** Whoever waits asleep will be notified: some drain task has yet to run, or to notify. */
  ghost predicate SomeoneNotifies(s: State)
    requires s.Shaped()
  {
    s.main.Asleep? ==> exists l :: 0 <= l < |s.pcs| && (!s.drains[l].Done? || s.pcs[l].Notifying?)
  }

  ghost predicate Inv(s: State) {
    && s.Shaped()
    && (s.server.Running? || s.server.Draining?)
    && (!s.main.Serving? ==> s.server.Draining?)
    && (s.main.Posting? ==> s.main.next <= |s.pcs|)
    && s.count == Sum(Terms(s))
    && (s.mutex.Some? ==> s.mutex.value < |s.pcs|)
    && SomeoneNotifies(s)
    && (forall l {:trigger LoopOk(s, l)} :: 0 <= l < |s.pcs| ==> LoopOk(s, l))
    && (forall c {:trigger ConnOk(s, c)} :: 0 <= c < |s.lives| ==> ConnOk(s, c))
  }

  /** The loop a step runs on. */
  function LoopOf(step: Step): Option<LoopId> {
    match step
    case Accept(l) => None
    case StartCreate(l) => Some(l)
    case SecondCheck(l) => Some(l)
    case Insert(l) => Some(l)
    case CountUp(l) => Some(l)
    case Close(l, _) => Some(l)
    case CountDown(l) => Some(l)
    case StartDrain(l) => Some(l)
    case DrainSubtract(l, _) => Some(l)
    case DrainErase(l) => Some(l)
    case FinishDrain(l) => Some(l)
    case Notify(l) => Some(l)
    case _ => None
  }

  lemma LoopStepKeepsCount(s: State, step: Step)
    requires Inv(s) && Enabled(s, step) && LoopOf(step).Some?
    ensures Do(s, step).Shaped() && Do(s, step).count == Sum(Terms(Do(s, step)))
  {
    var l, t := LoopOf(step).value, Do(s, step);
    LoopStepTerm(s, step, l);
    assert Terms(t) == Terms(s)[l := Counted(t.shards[l], t.pcs[l])];
    SumChange(Terms(s), l, Counted(t.shards[l], t.pcs[l]));
  }

  /** A step of loop `l` changes the counter by what it changes that loop's term. */
  lemma LoopStepTerm(s: State, step: Step, l: LoopId)
    requires Inv(s) && Enabled(s, step) && LoopOf(step) == Some(l)
    ensures var t := Do(s, step);
      && t.Shaped() && |t.pcs| == |s.pcs|
      && (forall k: LoopId :: k < |s.pcs| && k != l ==> t.pcs[k] == s.pcs[k] && t.shards[k] == s.shards[k])
      && t.count - s.count == Counted(t.shards[l], t.pcs[l]) - Counted(s.shards[l], s.pcs[l])
  {
    if step.Insert? {
      InsertTerm(s, l);
    } else if step.DrainErase? {
      DrainEraseTerm(s, l);
    } else {
      OtherStepTerm(s, step, l);
    }
  }

  lemma InsertTerm(s: State, l: LoopId)
    requires Inv(s) && Enabled(s, Insert(l))
    ensures var t := Do(s, Insert(l));
      && t.Shaped() && |t.pcs| == |s.pcs| && t.count == s.count
      && (forall k: LoopId :: k < |s.pcs| && k != l ==> t.pcs[k] == s.pcs[k] && t.shards[k] == s.shards[k])
      && Counted(t.shards[l], t.pcs[l]) == Counted(s.shards[l], s.pcs[l])
  {
    assert LoopOk(s, l) && Concerns(s.pcs[l], s.pcs[l].c);
    assert ConnOk(s, s.pcs[l].c);
  }

  lemma DrainEraseTerm(s: State, l: LoopId)
    requires Inv(s) && Enabled(s, DrainErase(l))
    ensures var t := Do(s, DrainErase(l));
      && t.Shaped() && |t.pcs| == |s.pcs| && t.count == s.count
      && (forall k: LoopId :: k < |s.pcs| && k != l ==> t.pcs[k] == s.pcs[k] && t.shards[k] == s.shards[k])
      && Counted(t.shards[l], t.pcs[l]) == Counted(s.shards[l], s.pcs[l])
  {
    assert LoopOk(s, l) && Concerns(s.pcs[l], s.pcs[l].c);
    assert ConnOk(s, s.pcs[l].c);
  }

  lemma OtherStepTerm(s: State, step: Step, l: LoopId)
    requires s.Shaped() && Enabled(s, step) && LoopOf(step) == Some(l) && !step.Insert? && !step.DrainErase?
    ensures var t := Do(s, step);
      && t.Shaped() && |t.pcs| == |s.pcs|
      && (forall k: LoopId :: k < |s.pcs| && k != l ==> t.pcs[k] == s.pcs[k] && t.shards[k] == s.shards[k])
      && t.count - s.count == Counted(t.shards[l], t.pcs[l]) - Counted(s.shards[l], s.pcs[l])
  {
  }

  lemma LoopStepKeepsLoops(s: State, step: Step, k: LoopId)
    requires Inv(s) && Enabled(s, step) && LoopOf(step).Some? && s.At(k)
    ensures Do(s, step).At(k) && LoopOk(Do(s, step), k)
  {
    assert LoopOk(s, k) && LoopOk(s, LoopOf(step).value);
    if k == LoopOf(step).value {
      OwnStepKeepsLoop(s, step, k);
    } else {
      OtherStepKeepsLoop(s, step, k);
    }
  }

  lemma OwnStepKeepsLoop(s: State, step: Step, l: LoopId)
    requires s.At(l) && LoopOk(s, l) && Enabled(s, step) && LoopOf(step) == Some(l)
    requires s.server.Running? || s.server.Draining?
    ensures Do(s, step).At(l) && LoopOk(Do(s, step), l)
  {
  }

  lemma OtherStepKeepsLoop(s: State, step: Step, k: LoopId)
    requires s.At(k) && LoopOk(s, k) && Enabled(s, step) && LoopOf(step).Some? && LoopOf(step).value != k
    requires LoopOk(s, LoopOf(step).value)
    ensures Do(s, step).At(k) && LoopOk(Do(s, step), k)
  {
  }

  lemma LoopStepKeepsConns(s: State, step: Step, c: ConnId)
    requires Inv(s) && Enabled(s, step) && LoopOf(step).Some? && c < |s.lives|
    ensures Do(s, step).Shaped() && c < |Do(s, step).lives| && ConnOk(Do(s, step), c)
  {
    assert ConnOk(s, c) && LoopOk(s, LoopOf(step).value) && LoopOk(s, s.lives[c].loop);
  }

  lemma SomeNotDone(s: State)
    requires Inv(s) && s.count != 0
    ensures exists l :: 0 <= l < |s.pcs| && !s.drains[l].Done?
  {
    if forall l :: 0 <= l < |s.pcs| ==> s.drains[l].Done? {
      forall l | 0 <= l < |s.pcs| ensures Terms(s)[l] == 0 { assert LoopOk(s, l); }
      SumOfNats(Terms(s));
    }
  }

  lemma LoopStepKeepsNotifier(s: State, step: Step)
    requires Inv(s) && Enabled(s, step) && LoopOf(step).Some?
    ensures Do(s, step).Shaped() && SomeoneNotifies(Do(s, step))
  {
    var l, t := LoopOf(step).value, Do(s, step);
    if t.main.Asleep? {
      var k :| 0 <= k < |s.pcs| && (!s.drains[k].Done? || s.pcs[k].Notifying?);
      assert LoopOk(s, k) && LoopOk(s, l);
      assert !t.drains[k].Done? || t.pcs[k].Notifying?;
    }
  }

  lemma MainStepKeepsInv(s: State, step: Step)
    requires Inv(s) && Enabled(s, step) && LoopOf(step).None?
    ensures Inv(Do(s, step))
  {
    var t := Do(s, step);
    assert Terms(t) == Terms(s);
    if step.CheckCount? && s.count != 0 { SomeNotDone(s); }
    forall l | 0 <= l < |t.pcs| ensures LoopOk(t, l) { assert LoopOk(s, l); }
    forall c | 0 <= c < |t.lives| ensures ConnOk(t, c) { assert ConnOk(s, c); }
  }

  lemma InvStep(s: State, step: Step)
    requires Inv(s)
    ensures Inv(Do(s, step))
  {
    var t := Do(s, step);
    if Enabled(s, step) {
      if LoopOf(step).None? {
        MainStepKeepsInv(s, step);
      } else {
        LoopStepKeepsCount(s, step);
        LoopStepKeepsNotifier(s, step);
        forall l | 0 <= l < |t.pcs| ensures LoopOk(t, l) { LoopStepKeepsLoops(s, step, l); }
        forall c | 0 <= c < |t.lives| ensures ConnOk(t, c) {
          if c < |s.lives| { LoopStepKeepsConns(s, step, c); } else { NewConnOk(s, step, c); }
        }
      }
    }
  }

  lemma NewConnOk(s: State, step: Step, c: ConnId)
    requires Inv(s) && Enabled(s, step) && LoopOf(step).Some? && |s.lives| <= c < |Do(s, step).lives|
    ensures Do(s, step).Shaped() && ConnOk(Do(s, step), c)
  {
    assert LoopOk(s, LoopOf(step).value);
  }

  lemma {:induction false} AlwaysInv(n: nat, steps: seq<Step>)
    ensures Inv(Run(n, steps)) && |Run(n, steps).pcs| == n
  {
    if steps == [] {
      NothingToCount(n);
    } else {
      AlwaysInv(n, steps[..|steps| - 1]);
      InvStep(Run(n, steps[..|steps| - 1]), steps[|steps| - 1]);
    }
  }

  lemma NothingToCount(n: nat)
    ensures Sum(Terms(Start(n))) == 0
  {
    SumOfNats(Terms(Start(n)));
  }

  function ShardSizes(s: State): seq<int> {
    seq(|s.shards|, l requires 0 <= l < |s.shards| => |s.shards[l]|)
  }

  /** Whenever every loop is between tasks, the counter is the number of connections in the shards. */
  lemma CountAtTaskBoundaries(n: nat, steps: seq<Step>)
    requires var s := Run(n, steps); forall l :: 0 <= l < |s.pcs| ==> s.pcs[l].Idle?
    ensures var s := Run(n, steps); s.count == Sum(ShardSizes(s))
  {
    AlwaysInv(n, steps);
    var s := Run(n, steps);
    assert ShardSizes(s) == Terms(s);
  }

  /**
   * However it leaves, a connection is counted once and uncounted once: between tasks of its loop it
   * is in its own loop's shard exactly when it was counted and not yet uncounted.
   */
  lemma SubtractedExactlyOnce(n: nat, steps: seq<Step>, c: ConnId)
    requires c < |Run(n, steps).lives|
    ensures var s := Run(n, steps); var life := s.lives[c];
      && life.subtracted <= life.added <= 1 && s.At(life.loop)
      && (s.pcs[life.loop].Idle? ==> (c in s.shards[life.loop] <==> life.added == 1 && life.subtracted == 0))
      && (forall l :: 0 <= l < |s.shards| && c in s.shards[l] ==> l == life.loop)
  {
    AlwaysInv(n, steps);
    var s := Run(n, steps);
    assert ConnOk(s, c);
    forall l | 0 <= l < n && c in s.shards[l] ensures l == s.lives[c].loop { assert LoopOk(s, l); }
  }

  lemma DrainedIsFinal(s: State, step: Step, l: LoopId)
    requires Inv(s) && s.At(l) && s.drains[l].Done?
    ensures Do(s, step).At(l) && Do(s, step).drains[l].Done?
  {
    assert LoopOk(s, l);
  }

  /** A shard whose loop has run its drain task is empty and stays empty. */
  lemma {:induction false} DrainedStaysEmpty(n: nat, steps: seq<Step>, later: seq<Step>, l: LoopId)
    requires Run(n, steps).At(l) && Run(n, steps).drains[l].Done?
    ensures var s := Run(n, steps + later); s.At(l) && s.drains[l].Done? && s.shards[l] == {}
  {
    if later == [] {
      assert steps + later == steps;
    } else {
      var front := steps + later[..|later| - 1];
      DrainedStaysEmpty(n, steps, later[..|later| - 1], l);
      assert (steps + later)[..|steps + later| - 1] == front;
      AlwaysInv(n, front);
      DrainedIsFinal(Run(n, front), later[|later| - 1], l);
    }
    AlwaysInv(n, steps + later);
    assert LoopOk(Run(n, steps + later), l);
  }

  ghost predicate AllEmpty(s: State) { forall l :: 0 <= l < |s.shards| ==> s.shards[l] == {} }

  /** Once every loop has run its drain task, all shards stay empty, the counter is zero and every account is closed. */
  lemma AllDrained(n: nat, steps: seq<Step>, later: seq<Step>)
    requires forall l :: 0 <= l < n ==> Run(n, steps).At(l) && Run(n, steps).drains[l].Done?
    ensures var s := Run(n, steps + later);
      && AllEmpty(s) && s.count == 0
      && (forall c :: 0 <= c < |s.lives| ==> s.lives[c].subtracted == s.lives[c].added <= 1)
  {
    var s := Run(n, steps + later);
    AlwaysInv(n, steps + later);
    forall l | 0 <= l < n ensures s.shards[l] == {} && (s.pcs[l].Idle? || s.pcs[l].Notifying?) {
      DrainedStaysEmpty(n, steps, later, l);
      assert LoopOk(s, l);
    }
    SumOfNats(Terms(s));
    forall c | 0 <= c < |s.lives| ensures s.lives[c].subtracted == s.lives[c].added <= 1 { assert ConnOk(s, c); }
  }

  /**
   * No wakeup of the wait is lost. Once every drain task has run and notified, the counter is zero
   * and the main thread does not sleep: if it has posted everything it can return from the wait.
   */
  lemma WaitIsNotLost(n: nat, steps: seq<Step>)
    requires forall l :: 0 <= l < n ==> Run(n, steps).At(l) && Run(n, steps).drains[l].Done? && Run(n, steps).pcs[l].Idle?
    ensures var s := Run(n, steps); s.count == 0 && !s.main.Asleep? && (s.main.Checking? ==> MayReturn(s))
  {
    AlwaysInv(n, steps);
    AwakeWhenDrained(Run(n, steps));
  }

  /** How many sockets have been accepted for a loop while the server was running. */
  function AcceptedFor(n: nat, steps: seq<Step>, l: LoopId): nat {
    if steps == [] then 0 else
      var before := Run(n, steps[..|steps| - 1]);
      AcceptedFor(n, steps[..|steps| - 1], l) +
        if steps[|steps| - 1] == Accept(l) && before.main.Serving? && before.server.Running? then 1 else 0
  }

  /** How many create tasks a loop has started. */
  function StartedOn(n: nat, steps: seq<Step>, l: LoopId): nat {
    if steps == [] then 0 else
      StartedOn(n, steps[..|steps| - 1], l) +
        if steps[|steps| - 1] == StartCreate(l) && Enabled(Run(n, steps[..|steps| - 1]), StartCreate(l)) then 1 else 0
  }

  /** A socket accepted while the server runs waits in its loop's queue or has had its create task started. */
  lemma {:induction false} NoSocketLost(n: nat, steps: seq<Step>, l: LoopId)
    requires l < n
    ensures Run(n, steps).At(l) && Run(n, steps).queued[l] + StartedOn(n, steps, l) == AcceptedFor(n, steps, l)
  {
    AlwaysInv(n, steps);
    if steps != [] {
      var front := steps[..|steps| - 1];
      NoSocketLost(n, front, l);
      QueueStep(Run(n, front), steps[|steps| - 1], l);
    }
  }

  lemma QueueStep(s: State, step: Step, l: LoopId)
    requires s.At(l)
    ensures Do(s, step).At(l)
    ensures Do(s, step).queued[l] + (if step == StartCreate(l) && Enabled(s, StartCreate(l)) then 1 else 0)
         == s.queued[l] + if step == Accept(l) && s.main.Serving? && s.server.Running? then 1 else 0
  {
  }

  /** `stop` takes a running server out of its running state, for good; an inner shutdown does the same. */
  lemma StopStops(n: nat, steps: seq<Step>, stop: Step, later: seq<Step>)
    requires stop.Stop? || (stop.LeaveLoop? && Run(n, steps).main.Serving?)
    ensures TookNoMore(Run(n, steps + [stop]), Run(n, steps + [stop] + later))
    ensures Run(n, steps + [stop] + later).server.Draining?
  {
    AlwaysInv(n, steps);
    RunNext(n, steps, stop);
    StoppedTakesNoMore(n, steps + [stop], later);
    AlwaysInv(n, steps + [stop] + later);
  }

  lemma AwakeWhenDrained(s: State)
    requires Inv(s) && forall l :: 0 <= l < |s.pcs| ==> s.drains[l].Done? && s.pcs[l].Idle?
    ensures s.count == 0 && !s.main.Asleep? && (s.main.Checking? ==> MayReturn(s))
  {
    forall l: LoopId | l < |s.pcs| ensures s.mutex != Some(l) && Terms(s)[l] == 0 { assert LoopOk(s, l); }
    SumOfNats(Terms(s));
  }

  /** Since `s` no connection object was made, none passed its second check, and no create task was queued. */
  predicate TookNoMore(s: State, t: State) {
    && s.Shaped() && t.Shaped() && |t.pcs| == |s.pcs| && |t.lives| == |s.lives| && !t.server.Running?
    && (forall l :: 0 <= l < |s.pcs| ==>
      (t.pcs[l].Committed? ==> t.pcs[l] == s.pcs[l]) && t.queued[l] <= s.queued[l])
  }

  lemma TakesNoMoreStep(s: State, t: State, step: Step)
    requires TookNoMore(s, t) && Inv(t)
    ensures TookNoMore(s, Do(t, step))
  {
  }

  /**
   * Once `stop` or the shutdown has taken the server out of its running state it stays out: from
   * then on the only connections still to be registered are those already past the second check.
   */
  lemma {:induction false} StoppedTakesNoMore(n: nat, steps: seq<Step>, later: seq<Step>)
    requires !Run(n, steps).server.Running?
    ensures TookNoMore(Run(n, steps), Run(n, steps + later))
  {
    if later == [] {
      assert steps + later == steps;
      AlwaysInv(n, steps);
    } else {
      var front, last := later[..|later| - 1], later[|later| - 1];
      StoppedTakesNoMore(n, steps, front);
      AlwaysInv(n, steps + front);
      assert steps + later == (steps + front) + [last];
      RunNext(n, steps + front, last);
      TakesNoMoreStep(Run(n, steps), Run(n, steps + front), last);
    }
  }

  /** Some loop is inside `create_connection`, past its last look at the server's state. */
  predicate SomeCommitted(s: State) { exists l :: 0 <= l < |s.pcs| && (s.pcs[l].Committed? || s.pcs[l].Inserted?) }

  /** Shutting down, with nothing in any shard and nothing on its way into one. */
  ghost predicate Quiet(s: State) {
    && s.Shaped() && s.server.Draining? && AllEmpty(s)
    && (forall l :: 0 <= l < |s.pcs| ==> s.pcs[l].Idle? || s.pcs[l].Configuring? || s.pcs[l].Sweeping? || s.pcs[l].Notifying?)
  }

  /** The predicate of the wait holds and can be seen to hold. */
  predicate MayReturn(s: State) { s.main.Checking? && s.mutex.None? && s.count == 0 }

  lemma {:induction false} QuietStays(n: nat, steps: seq<Step>, later: seq<Step>)
    requires Quiet(Run(n, steps))
    ensures Quiet(Run(n, steps + later))
  {
    if later == [] {
      assert steps + later == steps;
    } else {
      QuietStays(n, steps, later[..|later| - 1]);
      assert (steps + later)[..|steps + later| - 1] == steps + later[..|later| - 1];
      QuietStep(Run(n, steps + later[..|later| - 1]), later[|later| - 1]);
    }
  }

  lemma QuietStep(s: State, step: Step)
    requires Quiet(s)
    ensures Quiet(Do(s, step))
  {
  }

  lemma WaitSeesQuiet(s: State)
    requires Inv(s) && MayReturn(s) && !SomeCommitted(s)
    ensures Quiet(s)
  {
    forall l | 0 <= l < |s.pcs| ensures Terms(s)[l] >= 0 && (Terms(s)[l] == 0 ==> s.shards[l] == {} && !s.pcs[l].Erased?) {
      assert LoopOk(s, l);
    }
    SumOfNats(Terms(s));
    forall l | 0 <= l < |s.pcs| ensures s.pcs[l].Idle? || s.pcs[l].Configuring? || s.pcs[l].Sweeping? || s.pcs[l].Notifying? {
      assert LoopOk(s, l);
    }
  }

  /**
   * What the end of the wait in `shutdown_connections` means: all shards are empty for good exactly
   * when no loop was still inside `create_connection` past its last state check.
   */
  lemma WhatWaitReturnMeans(n: nat, steps: seq<Step>)
    requires MayReturn(Run(n, steps))
    ensures (forall later :: AllEmpty(Run(n, steps + later))) <==> !SomeCommitted(Run(n, steps))
  {
    var s := Run(n, steps);
    AlwaysInv(n, steps);
    if SomeCommitted(s) {
      var l :| 0 <= l < |s.pcs| && (s.pcs[l].Committed? || s.pcs[l].Inserted?);
      if s.pcs[l].Inserted? {
        assert LoopOk(s, l) && Concerns(s.pcs[l], s.pcs[l].c);
        assert ConnOk(s, s.pcs[l].c);
        assert steps + [] == steps;
        assert !AllEmpty(Run(n, steps + []));
      } else {
        RunNext(n, steps, Insert(l));
        assert s.pcs[l].c in Run(n, steps + [Insert(l)]).shards[l];
        assert !AllEmpty(Run(n, steps + [Insert(l)]));
      }
    } else {
      WaitSeesQuiet(s);
      forall later ensures AllEmpty(Run(n, steps + later)) {
        QuietStays(n, steps, later);
      }
    }
  }

  /** One loop, which has just looked at the server's state for the second time. */
  function AboutToInsert(): State {
    State([{}], [Committed(0)], [0], [NotPosted], 0, Running, None, Serving, [Life(0, 0, 0)])
  }

  lemma ReachAboutToInsert(steps: seq<Step>)
    requires steps == [Accept(0), StartCreate(0), SecondCheck(0)]
    ensures Run(1, steps) == AboutToInsert()
  {
    assert steps == ([] + [Accept(0)] + [StartCreate(0)]) + [SecondCheck(0)];
    RunNext(1, [], Accept(0));
    RunNext(1, [] + [Accept(0)], StartCreate(0));
    RunNext(1, [] + [Accept(0)] + [StartCreate(0)], SecondCheck(0));
  }

  lemma RunFour(n: nat, steps: seq<Step>, a: Step, b: Step, c: Step, d: Step)
    ensures Run(n, steps + [a] + [b] + [c] + [d]) == Do(Do(Do(Do(Run(n, steps), a), b), c), d)
  {
    RunNext(n, steps, a);
    RunNext(n, steps + [a], b);
    RunNext(n, steps + [a] + [b], c);
    RunNext(n, steps + [a] + [b] + [c], d);
  }

  /** Such a run exists: the wait is over while a connection is about to enter its shard. */
  lemma WaitCanReturnEarly(steps: seq<Step>)
    requires steps == [Accept(0), StartCreate(0), SecondCheck(0)] + [Stop] + [LeaveLoop] + [PostDrain] + [PostDrain]
    ensures MayReturn(Run(1, steps)) && SomeCommitted(Run(1, steps))
  {
    var creating := [Accept(0), StartCreate(0), SecondCheck(0)];
    ReachAboutToInsert(creating);
    ShutdownAroundInsert();
    RunFour(1, creating, Stop, LeaveLoop, PostDrain, PostDrain);
  }

  lemma ShutdownAroundInsert()
    ensures var s := Do(Do(Do(Do(AboutToInsert(), Stop), LeaveLoop), PostDrain), PostDrain);
      MayReturn(s) && SomeCommitted(s)
  {
    var s1 := AboutToInsert().(server := Draining);
    assert Do(Do(AboutToInsert(), Stop), LeaveLoop) == s1.(main := Posting(0));
    assert s1.pcs[0].Committed?;
  }
}
