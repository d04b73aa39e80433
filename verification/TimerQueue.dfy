/**
 * The timer queue: one index ordered by expiry, one by id, out of step on purpose while a batch of
 * callbacks runs. A callback may add and cancel timers, its own and others of its batch included.
 */
module TimerQueues {
  import opened Common
  import opened TimerHistory

  type TimerId = nat

  class Timer {
    const id: TimerId
    const interval: int          // nanoseconds; zero or less for a one-shot timer
    var expiration: Timestamp

    constructor (id: TimerId, expiration: Timestamp, interval: int)
      ensures this.id == id && this.expiration == expiration && this.interval == interval
    {
      this.id, this.expiration, this.interval := id, expiration, interval;
    }

    predicate IsRepeat() { interval > 0 }

    method Reschedule(now: Timestamp)
      modifies this`expiration
      ensures expiration == now + interval
    {
      expiration := now + interval;
    }
  }

  /** What a callback does to the queue. */
  datatype Action = Add(when: Timestamp, interval: int) | Cancel(id: TimerId)

  ghost predicate SameRuns(r: Runs, r': Runs) {
    && r'.starts == r.starts && r'.ends == r.ends && r'.interval == r.interval && r'.expiration == r.expiration
    && r'.inserted == r.inserted && (r.cancelledAfter.Some? ==> r'.cancelledAfter == r.cancelledAfter)
  }

  /** Ids name timers uniquely, and the id index holds live ones only. */
  ghost predicate Identified(byId: map<TimerId, Timer>, made: seq<Timer>, history: seq<Runs>) {
    && |history| == |made|
    && (forall id {:trigger made[id]} :: 0 <= id < |made| ==> made[id].id == id && history[id].interval == made[id].interval)
    && (forall id {:trigger id in byId} :: id in byId ==>
      && id < |made| && byId[id] == made[id]
      && history[id].inserted && history[id].cancelledAfter.None?)
  }

  /** The entry a timer has in the expiry index when it is there. */
  function Entry(history: seq<Runs>, t: Timer): (Timestamp, Timer)
    requires t.id < |history|
  {
    (history[t.id].expiration, t)
  }

  /**
   * The coupling of the indexes around a batch: each expiry entry is a live timer under its current
   * expiration, and each live timer is either queued by expiry or in the batch, never both.
   */
  ghost predicate Coupled(queue: set<(Timestamp, Timer)>, byId: map<TimerId, Timer>, history: seq<Runs>, batch: set<Timer>) {
    && (forall t {:trigger t in batch} :: t in batch ==> t.id < |history| && history[t.id].inserted)
    && (forall e {:trigger e in queue} :: e in queue ==>
      e.1.id < |history| && e == Entry(history, e.1) && e.1.id in byId && byId[e.1.id] == e.1)
    && (forall id {:trigger id in byId} :: id in byId ==>
      byId[id].id < |history| && (Entry(history, byId[id]) in queue <==> byId[id] !in batch))
  }

  ghost predicate AllSound(history: seq<Runs>, clock: Timestamp) {
    forall id {:trigger Sound(history[id], clock)} :: 0 <= id < |history| ==> Sound(history[id], clock)
  }

  /** Every live timer but the running one may wait for its expiration, and a batch holds expired timers. */
  ghost predicate Timely(
    byId: map<TimerId, Timer>, history: seq<Runs>, clock: Timestamp, batch: set<Timer>, running: set<Timer>)
  {
    && (forall id {:trigger id in byId} :: id in byId ==> id < |history|)
    && (forall id {:trigger MayWait(history[id])} :: id in byId && byId[id] !in running ==> MayWait(history[id]))
    && (forall t {:trigger t in batch} :: t in batch ==> t.id < |history| && history[t.id].expiration <= clock)
  }

  function Inserted(history: seq<Runs>, id: TimerId): seq<Runs>
    requires id < |history|
  {
    history[id := history[id].(inserted := true)]
  }

  function Started(history: seq<Runs>, id: TimerId, now: Timestamp): seq<Runs>
    requires id < |history|
  {
    history[id := history[id].(starts := history[id].starts + [now])]
  }

  function Ended(history: seq<Runs>, id: TimerId, now: Timestamp): seq<Runs>
    requires id < |history|
  {
    history[id := history[id].(ends := history[id].ends + [now])]
  }

  function Cancelled(history: seq<Runs>, id: TimerId): seq<Runs>
    requires id < |history|
  {
    history[id := history[id].(cancelledAfter := Some(|history[id].starts|))]
  }

  /** The two indexes, all timers ever created (by id) and their records. */
  datatype Index = Index(
    queue: set<(Timestamp, Timer)>, byId: map<TimerId, Timer>, made: seq<Timer>, history: seq<Runs>)
  {
    ghost predicate Good(clock: Timestamp, batch: set<Timer>, running: set<Timer>) {
      && Identified(byId, made, history)
      && Coupled(queue, byId, history, batch)
      && AllSound(history, clock)
      && Timely(byId, history, clock, batch, running)
      && (forall t {:trigger t in batch} :: t in batch ==> Knows(t))
    }

    predicate Knows(t: Timer) { t.id < |history| && t.id < |made| && made[t.id] == t }

    function Insert(t: Timer): Index
      requires Knows(t)
    {
      Index(queue + {Entry(history, t)}, byId[t.id := t], made, Inserted(history, t.id))
    }

    function Erase(id: TimerId): Index
      requires id in byId && Knows(byId[id]) && id < |history|
    {
      Index(queue - {Entry(history, byId[id])}, byId - {id}, made, Cancelled(history, id))
    }

    /** What a callback can do to an earlier index: create timers and insert or cancel some, but start none. */
    ghost predicate Continues(before: Index) {
      && before.made <= made && |before.history| <= |history|
      && (forall id {:trigger history[id]} :: 0 <= id < |before.history| ==> SameRuns(before.history[id], history[id]))
      && (forall id {:trigger history[id]} :: |before.history| <= id < |history| ==> history[id].starts == [] && history[id].ends == [])
      && (forall id {:trigger id in byId} :: id in before.byId && id in byId ==> byId[id] == before.byId[id])
      && (forall id {:trigger id in byId} :: id in byId && id !in before.byId && id < |before.history| ==> !before.history[id].inserted)
      && (forall id {:trigger id in byId} :: id in before.byId && id !in byId && id < |before.history| ==> history[id].cancelledAfter.Some?)
    }

    /** One run of timer `id`, its callback included, since `before`. */
    ghost predicate Ran(before: Index, id: TimerId) {
      && before.made <= made && |before.history| <= |history|
      && id < |before.history|
      && (forall k {:trigger history[k]} :: 0 <= k < |before.history| && k != id ==> SameRuns(before.history[k], history[k]))
      && (forall k {:trigger history[k]} :: |before.history| <= k < |history| ==> history[k].starts == [] && history[k].ends == [])
      && |history[id].starts| == |before.history[id].starts| + 1 && before.history[id].starts <= history[id].starts
      && |history[id].ends| == |before.history[id].ends| + 1 && history[id].interval == before.history[id].interval
      && before.history[id].cancelledAfter.None? && history[id].inserted == before.history[id].inserted
      && (forall k {:trigger k in byId} :: k in before.byId && k !in byId && k < |before.history| ==> history[k].cancelledAfter.Some?)
    }

    function Create(t: Timer, when: Timestamp): Index {
      Index(queue, byId, made + [t], history + [Runs(t.interval, when, false, [], [], None)])
    }
  }

  lemma ClockKeepsGood(ix: Index, clock: Timestamp, later: Timestamp, batch: set<Timer>, running: set<Timer>)
    requires ix.Good(clock, batch, running) && clock <= later
    ensures ix.Good(later, batch, running)
  {
    forall id | 0 <= id < |ix.history| ensures Sound(ix.history[id], later) {
      assert Sound(ix.history[id], clock);
    }
  }

  lemma InsertKeepsCoupled(ix: Index, batch: set<Timer>, t: Timer)
    requires Identified(ix.byId, ix.made, ix.history) && Coupled(ix.queue, ix.byId, ix.history, batch)
    requires ix.Knows(t) && t.id !in ix.byId && t !in batch
    ensures var g := ix.Insert(t); Coupled(g.queue, g.byId, g.history, batch)
  {
    var g := ix.Insert(t);
    forall e | e in g.queue
      ensures e.1.id < |g.history| && e == Entry(g.history, e.1) && e.1.id in g.byId && g.byId[e.1.id] == e.1
    {
    }
    forall id | id in g.byId
      ensures g.byId[id].id < |g.history| && (Entry(g.history, g.byId[id]) in g.queue <==> g.byId[id] !in batch)
    {
      if id != t.id {
        assert Entry(g.history, ix.byId[id]) == Entry(ix.history, ix.byId[id]) != Entry(ix.history, t);
      }
    }
  }

  lemma FreshRecord(r: Runs, clock: Timestamp)
    requires Sound(r, clock) && !r.inserted
    ensures r.cancelledAfter.None? && MayWait(r.(inserted := true)) && Sound(r.(inserted := true), clock)
  {
  }

  lemma InsertKeepsIdentity(ix: Index, clock: Timestamp, batch: set<Timer>, running: set<Timer>, t: Timer)
    requires Identified(ix.byId, ix.made, ix.history) && Timely(ix.byId, ix.history, clock, batch, running)
    requires ix.Knows(t) && ix.history[t.id].cancelledAfter.None? && MayWait(ix.history[t.id].(inserted := true))
    ensures var g := ix.Insert(t); Identified(g.byId, g.made, g.history) && Timely(g.byId, g.history, clock, batch, running)
  {
    var g := ix.Insert(t);
    forall id | id in g.byId ensures g.byId[id] !in running ==> MayWait(g.history[id]) {
      if id != t.id { assert g.history[id] == ix.history[id] && g.byId[id] == ix.byId[id]; }
    }
  }

  lemma InsertKeepsGood(ix: Index, clock: Timestamp, batch: set<Timer>, running: set<Timer>, t: Timer)
    requires ix.Good(clock, batch, running) && ix.Knows(t) && !ix.history[t.id].inserted
    ensures ix.Insert(t).Good(clock, batch, running)
  {
    FreshRecord(ix.history[t.id], clock);
    InsertKeepsCoupled(ix, batch, t);
    InsertKeepsIdentity(ix, clock, batch, running, t);
    UpdateKeepsSound(ix.history, clock, t.id, ix.history[t.id].(inserted := true));
  }

  lemma EraseKeepsCoupled(ix: Index, batch: set<Timer>, id: TimerId)
    requires Identified(ix.byId, ix.made, ix.history) && Coupled(ix.queue, ix.byId, ix.history, batch)
    requires id in ix.byId
    ensures var g := ix.Erase(id); Coupled(g.queue, g.byId, g.history, batch)
  {
    var g := ix.Erase(id);
    forall e | e in g.queue
      ensures e.1.id < |g.history| && e == Entry(g.history, e.1) && e.1.id in g.byId && g.byId[e.1.id] == e.1
    {
    }
    forall k | k in g.byId
      ensures g.byId[k].id < |g.history| && (Entry(g.history, g.byId[k]) in g.queue <==> g.byId[k] !in batch)
    {
      assert Entry(g.history, ix.byId[k]) == Entry(ix.history, ix.byId[k]) != Entry(ix.history, ix.byId[id]);
    }
  }

  /** Erasing takes out of the expiry index whatever it holds under this id, and nothing else. */
  lemma ErasedFromQueue(ix: Index, batch: set<Timer>, id: TimerId)
    requires Identified(ix.byId, ix.made, ix.history) && Coupled(ix.queue, ix.byId, ix.history, batch)
    ensures forall e :: e in (if id in ix.byId then ix.Erase(id).queue else ix.queue) <==> e in ix.queue && e.1.id != id
  {
  }

  lemma EraseKeepsIdentity(ix: Index, clock: Timestamp, batch: set<Timer>, running: set<Timer>, id: TimerId)
    requires Identified(ix.byId, ix.made, ix.history) && Timely(ix.byId, ix.history, clock, batch, running)
    requires id in ix.byId
    ensures var g := ix.Erase(id); Identified(g.byId, g.made, g.history) && Timely(g.byId, g.history, clock, batch, running)
  {
    var g := ix.Erase(id);
    forall k | k in g.byId ensures g.byId[k] !in running ==> MayWait(g.history[k]) {
      assert g.history[k] == ix.history[k] && g.byId[k] == ix.byId[k];
    }
  }

  lemma CancelledRecord(r: Runs, clock: Timestamp)
    requires Sound(r, clock) && r.inserted
    ensures Sound(r.(cancelledAfter := Some(|r.starts|)), clock)
  {
  }

  lemma EraseKeepsGood(ix: Index, clock: Timestamp, batch: set<Timer>, running: set<Timer>, id: TimerId)
    requires ix.Good(clock, batch, running) && id in ix.byId
    ensures ix.Erase(id).Good(clock, batch, running)
  {
    CancelledRecord(ix.history[id], clock);
    EraseKeepsCoupled(ix, batch, id);
    EraseKeepsIdentity(ix, clock, batch, running, id);
    UpdateKeepsSound(ix.history, clock, id, ix.history[id].(cancelledAfter := Some(|ix.history[id].starts|)));
  }

  lemma UpdateKeepsSound(history: seq<Runs>, clock: Timestamp, id: TimerId, r: Runs)
    requires AllSound(history, clock) && id < |history| && Sound(r, clock)
    ensures AllSound(history[id := r], clock)
  {
  }

  lemma CreateKeepsGood(ix: Index, clock: Timestamp, batch: set<Timer>, running: set<Timer>, t: Timer, when: Timestamp)
    requires ix.Good(clock, batch, running) && t.id == |ix.history|
    ensures ix.Create(t, when).Good(clock, batch, running)
  {
    var h := ix.Create(t, when).history;
    forall id | 0 <= id < |h| ensures Sound(h[id], clock) {
      if id < |ix.history| { assert Sound(ix.history[id], clock); }
    }
    assert Coupled(ix.queue, ix.byId, h, batch) by {
      forall e | e in ix.queue ensures e == Entry(h, e.1) { assert e == Entry(ix.history, e.1); }
      forall id | id in ix.byId ensures Entry(h, ix.byId[id]) == Entry(ix.history, ix.byId[id]) {}
    }
  }

  lemma AddContinues(ix: Index, t: Timer, when: Timestamp)
    requires t.id == |ix.history| == |ix.made|
    requires forall id :: id in ix.byId ==> id < |ix.history|
    ensures ix.Create(t, when).Insert(t).Continues(ix)
  {
  }

  lemma EraseContinues(ix: Index, id: TimerId)
    requires id in ix.byId ==> id < |ix.history| && ix.Knows(ix.byId[id])
    ensures ix.Continues(ix)
    ensures id in ix.byId && ix.history[id].cancelledAfter.None? ==> ix.Erase(id).Continues(ix)
  {
  }

  lemma ContinuesIsTransitive(a: Index, b: Index, c: Index)
    requires b.Continues(a) && c.Continues(b)
    requires forall id :: id in a.byId ==> id < |a.history| && a.history[id].inserted
    ensures c.Continues(a)
  {
    assert a.made <= c.made;
    forall id | 0 <= id < |a.history| ensures SameRuns(a.history[id], c.history[id]) {
      assert SameRuns(a.history[id], b.history[id]) && SameRuns(b.history[id], c.history[id]);
    }
    forall id | |a.history| <= id < |c.history| ensures c.history[id].starts == [] && c.history[id].ends == [] {
      if id < |b.history| { assert SameRuns(b.history[id], c.history[id]); }
    }
  }

  /** Collecting moves a live timer from the expiry index into the batch. */
  lemma CollectKeepsGood(ix: Index, clock: Timestamp, batch: set<Timer>, e: (Timestamp, Timer))
    requires ix.Good(clock, batch, {}) && e in ix.queue && e.0 <= clock
    ensures ix.(queue := ix.queue - {e}).Good(clock, batch + {e.1}, {})
    ensures e.1 !in batch && ix.Knows(e.1)
  {
    var q := ix.queue - {e};
    assert e == Entry(ix.history, ix.byId[e.1.id]);
    forall id | id in ix.byId ensures Entry(ix.history, ix.byId[id]) in q <==> ix.byId[id] !in batch + {e.1} {
      assert Entry(ix.history, ix.byId[id]) in ix.queue <==> ix.byId[id] !in batch;
    }
  }

  /** A batch member whose timer was cancelled is simply dropped. */
  lemma DropKeepsGood(ix: Index, clock: Timestamp, batch: set<Timer>, t: Timer)
    requires ix.Good(clock, batch, {}) && ix.Knows(t) && t.id !in ix.byId
    ensures ix.Good(clock, batch - {t}, {})
  {
  }

  lemma DropRunningKeepsGood(ix: Index, clock: Timestamp, batch: set<Timer>, t: Timer)
    requires ix.Good(clock, batch, {t}) && ix.Knows(t) && t.id !in ix.byId
    ensures ix.Good(clock, batch - {t}, {})
  {
    forall id | id in ix.byId ensures MayWait(ix.history[id]) {
      assert ix.byId[id] !in {t};
    }
  }

  /** A one-shot timer that has run leaves the id index too. */
  lemma RetireKeepsGood(ix: Index, clock: Timestamp, batch: set<Timer>, t: Timer)
    requires ix.Good(clock, batch, {t}) && ix.Knows(t) && t in batch
    ensures ix.(byId := ix.byId - {t.id}).Good(clock, batch - {t}, {})
  {
    var m := ix.byId - {t.id};
    forall id | id in m ensures MayWait(ix.history[id]) {
      assert ix.byId[id] !in {t};
    }
    forall e | e in ix.queue ensures e.1.id in m && m[e.1.id] == e.1 {
      assert e.1.id != t.id;
    }
  }

  function Requeued(ix: Index, t: Timer, when: Timestamp): Index
    requires t.id < |ix.history|
  {
    ix.(queue := ix.queue + {(when, t)}, history := ix.history[t.id := ix.history[t.id].(expiration := when)])
  }

  lemma RequeueKeepsCoupled(ix: Index, batch: set<Timer>, t: Timer, when: Timestamp)
    requires Identified(ix.byId, ix.made, ix.history) && Coupled(ix.queue, ix.byId, ix.history, batch)
    requires ix.Knows(t) && t in batch && t.id in ix.byId
    ensures var g := Requeued(ix, t, when); Coupled(g.queue, g.byId, g.history, batch - {t})
  {
    var g := Requeued(ix, t, when);
    forall e | e in g.queue
      ensures e.1.id < |g.history| && e == Entry(g.history, e.1) && e.1.id in g.byId && g.byId[e.1.id] == e.1
    {
      if e != (when, t) {
        assert e == Entry(ix.history, e.1);
        assert e.1.id != t.id;
      }
    }
    forall id | id in g.byId
      ensures g.byId[id].id < |g.history| && (Entry(g.history, g.byId[id]) in g.queue <==> g.byId[id] !in batch - {t})
    {
      if id != t.id {
        assert Entry(g.history, g.byId[id]) == Entry(ix.history, ix.byId[id]) != (when, t);
      }
    }
  }

  /** A repeating timer that has run goes back into the expiry index under its new expiration. */
  lemma RequeueKeepsGood(ix: Index, clock: Timestamp, batch: set<Timer>, t: Timer, when: Timestamp)
    requires ix.Good(clock, batch, {t}) && ix.Knows(t) && t in batch && t.id in ix.byId
    requires MayWait(ix.history[t.id].(expiration := when))
    ensures Requeued(ix, t, when).Good(clock, batch - {t}, {})
  {
    RequeueKeepsCoupled(ix, batch, t, when);
    RequeueKeepsIdentity(ix, clock, batch, t, when);
    RequeueKeepsSound(ix, clock, t, when);
  }

  lemma RequeueKeepsSound(ix: Index, clock: Timestamp, t: Timer, when: Timestamp)
    requires AllSound(ix.history, clock) && ix.Knows(t)
    ensures AllSound(Requeued(ix, t, when).history, clock) && Requeued(ix, t, when).made == ix.made
  {
    assert Sound(ix.history[t.id], clock);
    UpdateKeepsSound(ix.history, clock, t.id, ix.history[t.id].(expiration := when));
  }

  lemma RequeueKeepsIdentity(ix: Index, clock: Timestamp, batch: set<Timer>, t: Timer, when: Timestamp)
    requires Identified(ix.byId, ix.made, ix.history) && Timely(ix.byId, ix.history, clock, batch, {t})
    requires ix.Knows(t) && (forall u :: u in batch ==> ix.Knows(u))
    requires MayWait(ix.history[t.id].(expiration := when))
    ensures var g := Requeued(ix, t, when);
      Identified(g.byId, g.made, g.history) && Timely(g.byId, g.history, clock, batch - {t}, {})
  {
    var g := Requeued(ix, t, when);
    forall id | id in g.byId ensures MayWait(g.history[id]) {
      if id != t.id { assert ix.byId[id] !in {t} && MayWait(ix.history[id]); }
    }
  }

  lemma StartKeepsSound(r: Runs, clock: Timestamp, now: Timestamp)
    requires Sound(r, clock) && MayWait(r) && r.inserted && r.cancelledAfter.None? && r.expiration <= clock <= now
    ensures Sound(r.(starts := r.starts + [now]), now)
  {
  }

  lemma EndKeepsSound(r: Runs, clock: Timestamp, now: Timestamp)
    requires Sound(r, clock) && |r.starts| == |r.ends| + 1 && clock <= now
    ensures Sound(r.(ends := r.ends + [now]), now)
  {
  }

  /** The history entry of `t` changes while it runs; everything else keeps its place. */
  lemma RecordKeepsGood(ix: Index, clock: Timestamp, batch: set<Timer>, running: set<Timer>, t: Timer, r: Runs)
    requires ix.Good(clock, batch, running) && ix.Knows(t) && Sound(r, clock)
    requires ix.history[t.id].interval == r.interval && ix.history[t.id].expiration == r.expiration
    requires ix.history[t.id].inserted == r.inserted && ix.history[t.id].cancelledAfter == r.cancelledAfter
    ensures ix.(history := ix.history[t.id := r]).Good(clock, batch, running + {t})
  {
    var h := ix.history[t.id := r];
    UpdateKeepsSound(ix.history, clock, t.id, r);
    forall id | id in ix.byId && ix.byId[id] !in running + {t} ensures MayWait(h[id]) {
      assert MayWait(ix.history[id]);
    }
    forall e | e in ix.queue ensures e == Entry(h, e.1) { assert e == Entry(ix.history, e.1); }
    forall id | id in ix.byId ensures Entry(h, ix.byId[id]) == Entry(ix.history, ix.byId[id]) {}
  }

  lemma RanIsComposed(before: Index, started: Index, finished: Index, after: Index, id: TimerId)
    requires id < |before.history| && id in before.byId && before.history[id].cancelledAfter.None?
    requires exists t :: started == before.(history := Started(before.history, id, t))
    requires finished.Continues(started) && |before.history[id].ends| == |before.history[id].starts|
    requires id < |finished.history| && exists t :: after == finished.(history := Ended(finished.history, id, t))
    ensures after.Ran(before, id)
  {
    assert SameRuns(started.history[id], finished.history[id]);
    forall k | 0 <= k < |before.history| && k != id ensures SameRuns(before.history[k], after.history[k]) {
      assert SameRuns(started.history[k], finished.history[k]);
    }
  }

  class TimerQueue {
    var nextTimerId: TimerId
    var expireSet: set<(Timestamp, Timer)>
    var timersById: map<TimerId, Timer>
    var clock: Timestamp              // the latest reading of the steady clock
    var armed: Option<Timestamp>      // the deadline the timerfd is set to
    ghost var armedRead: Timestamp    // the clock reading the deadline was computed from
    ghost var armedSet: Timestamp     // when the timerfd was set
    ghost var made: seq<Timer>        // every timer ever created, by id
    ghost var history: seq<Runs>      // and what became of it

    ghost function View(): Index
      reads this
    {
      Index(expireSet, timersById, made, history)
    }

    ghost predicate Inv(batch: set<Timer>, running: set<Timer>)
      reads this, made
    {
      && |history| == nextTimerId >= 1
      && View().Good(clock, batch, running)
      && (forall id {:trigger made[id]} :: 0 <= id < |made| ==> made[id].expiration == history[id].expiration)
    }

    ghost predicate Earliest(k: Timestamp)
      reads this`expireSet
    {
      (exists e :: e in expireSet && e.0 == k) && (forall e :: e in expireSet ==> k <= e.0)
    }

    ghost predicate ArmedFor(k: Timestamp, deadline: Timestamp)
      reads this`armedRead, this`armedSet
    {
      k <= deadline == Max(k, armedRead + MILLISECOND) + (armedSet - armedRead)
    }

    /** Armed exactly when something is queued, for no earlier than the first expiration and hardly later. */
    ghost predicate Armed()
      reads this`expireSet, this`armed, this`armedRead, this`armedSet
    {
      && (armed.None? <==> expireSet == {})
      && armedRead <= armedSet
      && (armed.Some? ==> exists k :: Earliest(k) && ArmedFor(k, armed.value))
    }

    /** Between batches. */
    ghost predicate Valid()
      reads this, made
    {
      Inv({}, {}) && Armed()
    }

    constructor ()
      ensures Valid() && expireSet == {} && timersById == map[]
    {
      nextTimerId, expireSet, timersById, clock, armed := 1, {}, map[], 0, None;
      armedRead, armedSet := 0, 0;
      var invalid := new Timer(0, 0, 0);  // id 0 stands for no timer
      made, history := [invalid], [Runs(0, 0, false, [], [], None)];
    }

    /** The steady clock: some reading, never behind an earlier one. */
    method ReadClock() returns (now: Timestamp)
      modifies this`clock
      ensures now == clock >= old(clock)
    {
      var reading: Timestamp := *;
      if clock < reading {
        clock := reading;
      }
      now := clock;
    }

    /** Sets the timerfd for the earliest entry, or disarms it. */
    method SyncTimerfd(ghost batch: set<Timer>, ghost running: set<Timer>)
      requires Inv(batch, running)
      modifies this`clock, this`armed, this`armedRead, this`armedSet
      ensures Inv(batch, running) && Armed() && clock >= old(clock)
    {
      ghost var before := clock;
      Rearm();
      ClockKeepsGood(View(), before, clock, batch, running);
    }

    method Rearm()
      modifies this`clock, this`armed, this`armedRead, this`armedSet
      ensures Armed() && clock >= old(clock)
    {
      if expireSet == {} {
        armed, armedRead, armedSet := None, clock, clock;
        return;
      }
      var first := Begin();
      ResetTimerfd(first.0);
    }

    /** `begin()` of the expiry index: an entry with the least key. */
    method Begin() returns (e: (Timestamp, Timer))
      requires expireSet != {}
      ensures e in expireSet && Earliest(e.0)
    {
      HasLeast(expireSet);
      e :| e in expireSet && forall f :: f in expireSet ==> e.0 <= f.0;
    }

    method ResetTimerfd(expiration: Timestamp)
      requires Earliest(expiration) && expireSet != {}
      modifies this`clock, this`armed, this`armedRead, this`armedSet
      ensures Armed() && clock >= old(clock)
    {
      var now := ReadClock();
      var ts := ToTimespec(expiration - now);
      var setAt := ReadClock();
      armed := Some(setAt + ts.sec * SECOND + ts.nsec);
      armedRead, armedSet := now, setAt;
      assert Earliest(expiration);
    }

    /** `add_timer` on any thread: takes an id; the index insertion is a task of its own. */
    method CreateTimer(when: Timestamp, interval: int, ghost batch: set<Timer>, ghost running: set<Timer>) returns (timer: Timer)
      requires Inv(batch, running)
      modifies this`nextTimerId, this`made, this`history
      ensures Inv(batch, running) && fresh(timer)
      ensures timer.id == old(nextTimerId) && timer.expiration == when && timer.interval == interval
      ensures View() == old(View()).Create(timer, when)
    {
      timer := new Timer(nextTimerId, when, interval);
      CreateKeepsGood(View(), clock, batch, running, timer, when);
      nextTimerId := nextTimerId + 1;
      made := made + [timer];
      history := history + [Runs(interval, when, false, [], [], None)];
    }

    /** The insertion task, run once per created timer on the loop thread. */
    method InsertTimer(timer: Timer, ghost batch: set<Timer>, ghost running: set<Timer>)
      requires Inv(batch, running) && View().Knows(timer) && !history[timer.id].inserted
      modifies this`expireSet, this`timersById, this`history, this`clock, this`armed, this`armedRead, this`armedSet
      ensures Inv(batch, running) && Armed() && clock >= old(clock)
      ensures View() == old(View()).Insert(timer)
      ensures timersById == old(timersById)[timer.id := timer]
      ensures expireSet == old(expireSet) + {(timer.expiration, timer)}
    {
      IndexTimer(timer, batch, running);
      SyncTimerfd(batch, running);
    }

    method IndexTimer(timer: Timer, ghost batch: set<Timer>, ghost running: set<Timer>)
      requires Inv(batch, running) && View().Knows(timer) && !history[timer.id].inserted
      modifies this`expireSet, this`timersById, this`history
      ensures Inv(batch, running) && View() == old(View()).Insert(timer)
    {
      ghost var after := View().Insert(timer);
      InsertKeepsGood(View(), clock, batch, running, timer);
      assert (timer.expiration, timer) == Entry(history, timer);
      expireSet := expireSet + {(timer.expiration, timer)};
      timersById := timersById[timer.id := timer];
      history := Inserted(history, timer.id);
      assert View() == after;
    }

    /** `erase_timer` on the loop thread. A timer found by id is out of both indexes for good. */
    method EraseTimer(id: TimerId, ghost batch: set<Timer>, ghost running: set<Timer>)
      requires Inv(batch, running)
      modifies this`expireSet, this`timersById, this`history, this`clock, this`armed, this`armedRead, this`armedSet
      ensures Inv(batch, running) && Armed() && clock >= old(clock)
      ensures View() == if id in old(timersById) then old(View()).Erase(id) else old(View())
      ensures timersById == old(timersById) - {id}
      ensures forall e :: e in expireSet <==> e in old(expireSet) && e.1.id != id
      ensures id in old(timersById) ==> history[id].cancelledAfter == Some(|history[id].starts|)
    {
      ErasedFromQueue(View(), batch, id);
      if id in timersById {
        UnindexTimer(id, batch, running);
      }
      SyncTimerfd(batch, running);
    }

    method UnindexTimer(id: TimerId, ghost batch: set<Timer>, ghost running: set<Timer>)
      requires Inv(batch, running) && id in timersById
      modifies this`expireSet, this`timersById, this`history
      ensures Inv(batch, running) && View() == old(View()).Erase(id)
    {
      ghost var after := View().Erase(id);
      EraseKeepsGood(View(), clock, batch, running, id);
      var timer := timersById[id];
      assert (timer.expiration, timer) == Entry(history, timer);
      expireSet := expireSet - {(timer.expiration, timer)};
      timersById := timersById - {id};
      history := Cancelled(history, id);
      assert View() == after;
    }

    /** `add_timer` on the loop thread: the insertion runs at once. */
    method AddTimer(when: Timestamp, interval: int, ghost batch: set<Timer>, ghost running: set<Timer>) returns (id: TimerId)
      requires Inv(batch, running)
      modifies this
      ensures Inv(batch, running) && Armed() && clock >= old(clock) && id == old(nextTimerId)
      ensures |made| == |old(made)| + 1 && made[..id] == old(made) && fresh(made[id])
      ensures View() == old(View()).Create(made[id], when).Insert(made[id])
    {
      var timer := CreateTimer(when, interval, batch, running);
      InsertTimer(timer, batch, running);
      id := timer.id;
    }

    /** The body of a timer's callback: any list of additions and cancellations, run inline. */
    method Callback(ghost batch: set<Timer>, ghost running: set<Timer>)
      requires Inv(batch, running)
      modifies this
      ensures Inv(batch, running) && clock >= old(clock) && View().Continues(old(View()))
      ensures forall id :: |old(made)| <= id < |made| ==> fresh(made[id])
    {
      var actions: seq<Action> := *;
      for n := 0 to |actions|
        invariant Inv(batch, running) && clock >= old(clock) && View().Continues(old(View()))
        invariant forall id :: |old(made)| <= id < |made| ==> fresh(made[id])
      {
        ghost var before := View();
        Perform(actions[n], batch, running);
        ContinuesIsTransitive(old(View()), before, View());
      }
    }

    method Perform(action: Action, ghost batch: set<Timer>, ghost running: set<Timer>)
      requires Inv(batch, running)
      modifies this
      ensures Inv(batch, running) && clock >= old(clock) && View().Continues(old(View()))
      ensures forall id :: |old(made)| <= id < |made| ==> fresh(made[id])
    {
      match action {
        case Add(when, interval) =>
          var id := AddTimer(when, interval, batch, running);
          AddContinues(old(View()), made[id], when);
        case Cancel(id) =>
          EraseTimer(id, batch, running);
          EraseContinues(old(View()), id);
      }
    }

    /** Runs the callback, between two readings of the clock. */
    method RunTimer(timer: Timer, ghost batch: set<Timer>)
      requires Inv(batch, {}) && View().Knows(timer) && timer in batch && timer.id in timersById
      modifies this
      ensures Inv(batch, {timer}) && clock >= old(clock)
      ensures NewOnesFresh(old(made), made)
      ensures View().Ran(old(View()), timer.id)
    {
      ghost var before := View();
      assert timersById[timer.id] == timer && MayWait(history[timer.id]);
      RecordStart(timer, batch);
      ghost var started := View();
      Callback(batch, {timer});
      ghost var finished := View();
      assert SameRuns(started.history[timer.id], finished.history[timer.id]);
      RecordEnd(timer, batch);
      RanIsComposed(before, started, finished, View(), timer.id);
    }

    method RecordStart(timer: Timer, ghost batch: set<Timer>)
      requires Inv(batch, {}) && View().Knows(timer) && timer in batch && timer.id in timersById
      modifies this`clock, this`history
      ensures Inv(batch, {timer}) && clock >= old(clock)
      ensures View() == old(View()).(history := Started(old(history), timer.id, clock))
    {
      ghost var earlier := clock;
      ghost var r := history[timer.id];
      assert timersById[timer.id] == timer && MayWait(r) && Sound(r, earlier);
      var now := ReadClock();
      StartKeepsSound(r, earlier, now);
      ClockKeepsGood(View(), earlier, now, batch, {});
      RecordKeepsGood(View(), now, batch, {}, timer, r.(starts := r.starts + [now]));
      history := history[timer.id := r.(starts := r.starts + [now])];
      assert {} + {timer} == {timer};
    }

    method RecordEnd(timer: Timer, ghost batch: set<Timer>)
      requires Inv(batch, {timer}) && View().Knows(timer)
      requires |history[timer.id].starts| == |history[timer.id].ends| + 1
      modifies this`clock, this`history
      ensures Inv(batch, {timer}) && clock >= old(clock)
      ensures View() == old(View()).(history := Ended(old(history), timer.id, clock))
    {
      ghost var earlier := clock;
      ghost var r := history[timer.id];
      assert Sound(r, earlier);
      var now := ReadClock();
      EndKeepsSound(r, earlier, now);
      ClockKeepsGood(View(), earlier, now, batch, {timer});
      RecordKeepsGood(View(), now, batch, {timer}, timer, r.(ends := r.ends + [now]));
      history := history[timer.id := r.(ends := r.ends + [now])];
      assert {timer} + {timer} == {timer};
    }

    /** After its callback: cancelled meanwhile, retired, or put back for its next run. */
    method Dispose(timer: Timer, ghost batch: set<Timer>)
      requires Inv(batch, {timer}) && View().Knows(timer) && timer in batch
      requires |history[timer.id].starts| == |history[timer.id].ends| > 0
      modifies this, timer`expiration
      ensures Inv(batch - {timer}, {}) && clock >= old(clock)
      ensures made == old(made) && Disposed(old(View()), View(), timer.id, clock)
      ensures forall id :: id in timersById ==> id in old(timersById)
    {
      if timer.id !in timersById {
        DropRunningKeepsGood(View(), clock, batch, timer);
        return;
      }
      if !timer.IsRepeat() {
        RetireKeepsGood(View(), clock, batch, timer);
        timersById := timersById - {timer.id};
        return;
      }
      ghost var earlier := clock;
      ghost var r := history[timer.id];
      assert Sound(r, earlier) && r.ends[|r.ends| - 1] <= earlier;
      var now := ReadClock();
      ClockKeepsGood(View(), earlier, now, batch, {timer});
      Requeue(timer, now, batch);
    }

    method Requeue(timer: Timer, now: Timestamp, ghost batch: set<Timer>)
      requires Inv(batch, {timer}) && View().Knows(timer) && timer in batch && timer.id in timersById
      requires MayWait(history[timer.id].(expiration := now + timer.interval))
      modifies this`expireSet, this`history, timer`expiration
      ensures Inv(batch - {timer}, {}) && View() == Requeued(old(View()), timer, now + timer.interval)
    {
      ghost var after := Requeued(View(), timer, now + timer.interval);
      RequeueKeepsGood(View(), clock, batch, timer, now + timer.interval);
      assert forall id :: 0 <= id < |made| && id != timer.id ==> made[id] != timer;
      timer.Reschedule(now);
      expireSet := expireSet + {(timer.expiration, timer)};
      history := history[timer.id := history[timer.id].(expiration := timer.expiration)];
      assert View() == after;
    }

    /** Part of the expired entries have been taken out, and nothing else has changed. */
    ghost predicate Collecting(expired: seq<Timer>, start: Index, now: Timestamp)
      reads this, made
    {
      && Inv(Members(expired), {})
      && View() == start.(queue := expireSet) && Collected(start, expireSet, expired, now)
      && InOrder(start.history, expired, expireSet)
    }

    /** Takes one expired entry out of the expiry index; the id index keeps it for cancellation. */
    method TakeOut(e: (Timestamp, Timer), expired: seq<Timer>, ghost start: Index, now: Timestamp) returns (expired': seq<Timer>)
      requires Collecting(expired, start, now) && e in expireSet && Earliest(e.0) && e.0 <= now == clock
      modifies this`expireSet
      ensures Collecting(expired', start, now) && |expireSet| < |old(expireSet)|
    {
      CollectKeepsGood(View(), clock, Members(expired), e);
      assert e == Entry(history, e.1);
      CollectedOneMore(start, expireSet, expired, now, e);
      InOrderOneMore(start.history, expired, expireSet, e);
      ghost var after := View().(queue := expireSet - {e});
      expireSet := expireSet - {e};
      assert View() == after;
      expired' := expired + [e.1];
    }

    /** Collects the batch: every entry whose time has come. */
    method Collect(now: Timestamp) returns (expired: seq<Timer>)
      requires Inv({}, {}) && now == clock
      modifies this`expireSet
      ensures Collecting(expired, old(View()), now) && forall e :: e in expireSet ==> now < e.0
    {
      expired := [];
      ghost var start := View();
      assert Members(expired) == {};
      var more := true;
      while more && expireSet != {}
        invariant Collecting(expired, start, now)
        invariant !more ==> forall e :: e in expireSet ==> now < e.0
        decreases more, |expireSet|
      {
        expired, more := CollectOne(expired, start, now);
      }
    }

    /** One turn: the first entry, unless its time has not come. */
    method CollectOne(expired: seq<Timer>, ghost start: Index, now: Timestamp) returns (expired': seq<Timer>, more: bool)
      requires Collecting(expired, start, now) && expireSet != {} && now == clock
      modifies this`expireSet
      ensures Collecting(expired', start, now)
      ensures if more then |expireSet| < |old(expireSet)| else forall e :: e in expireSet ==> now < e.0
    {
      var e := Begin();
      expired', more := expired, e.0 <= now;
      if more {
        expired' := TakeOut(e, expired, start, now);
      }
    }

    /** One batch member: skipped if cancelled meanwhile, else run and disposed of. */
    method Take(timer: Timer, ghost batch: set<Timer>, ghost start: Index, ghost handled: set<TimerId>)
      requires Inv(batch, {}) && View().Knows(timer) && timer in batch
      requires Handles(start, View(), handled, clock) && timer.id in start.byId && timer.id < |start.history| && timer.id !in handled
      modifies this, timer`expiration
      ensures Inv(batch - {timer}, {}) && clock >= old(clock)
      ensures NewOnesFresh(old(made), made)
      ensures Handles(start, View(), handled + {timer.id}, clock)
    {
      if timer.id !in timersById {
        DropKeepsGood(View(), clock, batch, timer);
        GoneIsHandled(start, View(), handled, timer.id, clock);
        return;
      }
      ghost var before := View();
      assert timersById[timer.id] == timer && MayWait(history[timer.id]);
      RunTimer(timer, batch);
      ghost var ran := View();
      Dispose(timer, batch);
      HandlesLater(start, before, handled, old(clock), clock);
      HandlesOneMore(start, before, ran, View(), handled, timer.id, clock);
    }

    /** The first `i` members of the batch have been dealt with. */
    ghost predicate Midway(expired: seq<Timer>, i: nat, start: Index)
      reads this, made
      requires i <= |expired|
    {
      Inv(Members(expired[i..]), {}) && Handles(start, View(), Ids(expired[..i]), clock)
    }

    method TakeNth(timer: Timer, ghost expired: seq<Timer>, ghost i: nat, ghost start: Index)
      requires i < |expired| && timer == expired[i] && Midway(expired, i, start) && Distinct(expired)
      requires AllIn(expired, start)
      modifies this, timer`expiration
      ensures Midway(expired, i + 1, start) && clock >= old(clock)
      ensures NewOnesFresh(old(made), made)
    {
      NextOfBatch(expired, i);
      NewId(expired, i, start);
      Take(timer, Members(expired[i..]), start, Ids(expired[..i]));
    }

    method RunBatch(expired: seq<Timer>, ghost start: Index)
      requires Inv(Members(expired), {}) && Distinct(expired) && Handles(start, View(), {}, clock)
      requires AllIn(expired, start)
      modifies this, Members(expired)
      ensures Inv({}, {}) && clock >= old(clock)
      ensures Handles(start, View(), Ids(expired), clock) && NewOnesFresh(old(made), made)
    {
      assert expired[0..] == expired;
      for i := 0 to |expired|
        invariant Midway(expired, i, start) && clock >= old(clock)
        invariant NewOnesFresh(old(made), made)
      {
        TakeNth(expired[i], expired, i, start);
      }
      assert expired[..|expired|] == expired && expired[|expired|..] == [];
      assert Members(expired[|expired|..]) == {};
    }

    /**
     * The timerfd fires. Every live timer due at the reading taken here runs exactly once, or was
     * cancelled by an earlier callback of the batch; no other timer runs; then the timerfd is set anew.
     */
    method OnTimerfdRead() returns (now: Timestamp)
      requires Valid()
      modifies this, Members(made)
      ensures Valid() && now >= old(clock)
      ensures Handles(old(View()), View(), Due(old(timersById), old(history), now), clock)
      ensures NewOnesFresh(old(made), made)
    {
      ghost var start := View();
      now := Now();
      Fire(now, start);
      ghost var reading := clock;
      SyncTimerfd({}, {});
      HandlesLater(start, View(), Due(start.byId, start.history, now), reading, clock);
    }

    /** Collects and runs the batch. */
    method Fire(now: Timestamp, ghost start: Index)
      requires Inv({}, {}) && now == clock && View() == start
      modifies this, Members(made)
      ensures Inv({}, {}) && clock >= old(clock) && NewOnesFresh(old(made), made)
      ensures Handles(start, View(), Due(start.byId, start.history, now), clock)
    {
      var expired := CollectDue(now, start);
      RunBatch(expired, start);
    }

    /** A reading of the clock between batches. */
    method Now() returns (now: Timestamp)
      requires Inv({}, {})
      modifies this`clock
      ensures Inv({}, {}) && now == clock >= old(clock)
    {
      now := ReadClock();
      ClockKeepsGood(View(), old(clock), now, {}, {});
    }

    /** The batch, with its relation to the state before it. */
    method CollectDue(now: Timestamp, ghost start: Index) returns (expired: seq<Timer>)
      requires Inv({}, {}) && now == clock && View() == start
      modifies this`expireSet
      ensures Inv(Members(expired), {}) && Distinct(expired) && Members(expired) <= Members(made)
      ensures Ids(expired) == Due(start.byId, start.history, now) && Handles(start, View(), {}, clock)
      ensures AllIn(expired, start)
    {
      expired := Collect(now);
      DueIsExpired(start, expired, now, expireSet);
      HandlesNothing(start, View(), clock);
    }

    /** Outside a batch the two indexes are in bijection: one expiry entry per live timer, and no other. */
    lemma IndexesAgree()
      requires Valid()
      ensures forall t: Timer :: (t.id in timersById && timersById[t.id] == t) <==> (exists e :: e in expireSet && e.1 == t)
      ensures forall e, f :: e in expireSet && f in expireSet && e.1 == f.1 ==> e == f
      ensures forall e :: e in expireSet ==> e.0 == e.1.expiration
    {
      forall t: Timer | t.id in timersById && timersById[t.id] == t ensures exists e :: e in expireSet && e.1 == t {
        assert Entry(history, timersById[t.id]) in expireSet;
      }
      forall e | e in expireSet ensures e == Entry(history, e.1) && e.0 == e.1.expiration {
        assert timersById[e.1.id] == made[e.1.id];
      }
    }

    /** Whatever has happened: a one-shot ran at most once, a repeating timer never too often, a cancelled one never again. */
    lemma RunBounds(id: TimerId, from: Timestamp, width: nat)
      requires Valid() && id < |history|
      ensures history[id].interval <= 0 ==> |history[id].starts| <= 1
      ensures history[id].interval > 0 ==> StartsIn(history[id].starts, from, width) <= width / history[id].interval + 1
      ensures history[id].cancelledAfter.Some? ==> |history[id].starts| == history[id].cancelledAfter.value
    {
      assert Sound(history[id], clock);
      if history[id].interval > 0 {
        WindowBound(history[id], from, width);
      }
    }
  }

  /** Events in the life of a queue; other threads create timers whose insertion is queued as a task. */
  datatype TimerEvent =
    | CreateElsewhere(when: Timestamp, interval: int)
    | InsertNext
    | AddHere(when: Timestamp, interval: int)
    | CancelHere(id: TimerId)
    | Fire

  /** Runs only accumulate, and cancellation is final. */
  ghost predicate Grows(h: seq<Runs>, h': seq<Runs>) {
    |h| <= |h'| && forall id {:trigger GrowsTo(h[id], h'[id])} :: 0 <= id < |h| ==> GrowsTo(h[id], h'[id])
  }

  ghost predicate GrowsTo(r: Runs, r': Runs) {
    && r.starts <= r'.starts && r'.interval == r.interval
    && (r.cancelledAfter.Some? ==> r'.cancelledAfter == r.cancelledAfter && r'.starts == r.starts)
  }

  lemma GrowsIsTransitive(a: seq<Runs>, b: seq<Runs>, c: seq<Runs>)
    requires Grows(a, b) && Grows(b, c)
    ensures Grows(a, c)
  {
    forall id | 0 <= id < |a| ensures GrowsTo(a[id], c[id]) {
      assert GrowsTo(a[id], b[id]) && GrowsTo(b[id], c[id]);
    }
  }

  /** Timers created on other threads whose insertion task is still queued. */
  ghost predicate Awaiting(ix: Index, created: seq<Timer>) {
    && Distinct(created)
    && (forall i {:trigger Uninserted(ix, created[i])} :: 0 <= i < |created| ==> Uninserted(ix, created[i]))
  }

  ghost predicate Uninserted(ix: Index, t: Timer) {
    ix.Knows(t) && !ix.history[t.id].inserted
  }

  /** Nothing is inserted between `a` and `b`. */
  ghost predicate InsertsNothing(a: Index, b: Index) {
    && a.made <= b.made && |a.history| <= |b.history|
    && (forall id {:trigger b.history[id]} :: 0 <= id < |a.history| ==> b.history[id].inserted == a.history[id].inserted)
  }

  lemma StillAwaiting(a: Index, b: Index, created: seq<Timer>)
    requires Awaiting(a, created) && InsertsNothing(a, b)
    ensures Awaiting(b, created)
  {
    forall i | 0 <= i < |created| ensures Uninserted(b, created[i]) {
      assert Uninserted(a, created[i]);
      assert b.made[created[i].id] == a.made[created[i].id];
    }
  }

  lemma CreateGrows(ix: Index, t: Timer, when: Timestamp, created: seq<Timer>)
    requires Awaiting(ix, created) && t.id == |ix.history| == |ix.made|
    ensures Grows(ix.history, ix.Create(t, when).history) && Awaiting(ix.Create(t, when), created + [t])
  {
    var b := ix.Create(t, when);
    StillAwaiting(ix, b, created);
    forall i | 0 <= i < |created| ensures created[i] != t && Uninserted(b, created[i]) {
      assert Uninserted(ix, created[i]) && Uninserted(b, created[i]);
    }
    forall i | 0 <= i < |created| + 1 ensures Uninserted(b, (created + [t])[i]) {
      if i < |created| { assert Uninserted(b, created[i]); }
    }
  }

  lemma InsertGrows(ix: Index, created: seq<Timer>)
    requires Awaiting(ix, created) && created != [] && ix.Knows(created[0])
    ensures var b := ix.Insert(created[0]); Grows(ix.history, b.history) && Awaiting(b, created[1..])
  {
    var b := ix.Insert(created[0]);
    forall i | 0 <= i < |created| - 1 ensures Uninserted(b, created[1..][i]) {
      assert Uninserted(ix, created[i + 1]) && created[i + 1] != created[0];
    }
  }

  lemma AddGrows(ix: Index, t: Timer, when: Timestamp, created: seq<Timer>)
    requires Awaiting(ix, created) && t.id == |ix.history| == |ix.made|
    ensures var b := ix.Create(t, when).Insert(t); Grows(ix.history, b.history) && Awaiting(b, created)
  {
    StillAwaiting(ix, ix.Create(t, when).Insert(t), created);
  }

  lemma EraseGrows(ix: Index, id: TimerId, created: seq<Timer>)
    requires Awaiting(ix, created) && id in ix.byId && id < |ix.history| && ix.Knows(ix.byId[id])
    requires ix.history[id].cancelledAfter.None?
    ensures Grows(ix.history, ix.Erase(id).history) && Awaiting(ix.Erase(id), created)
  {
    StillAwaiting(ix, ix.Erase(id), created);
  }

  lemma FireGrows(a: Index, b: Index, handled: set<TimerId>, created: seq<Timer>, clock: Timestamp)
    requires Awaiting(a, created) && Handles(a, b, handled, clock) && a.made <= b.made
    requires forall id :: id in handled && id < |a.history| ==> a.history[id].cancelledAfter.None?
    ensures Grows(a.history, b.history) && Awaiting(b, created)
  {
    forall id | 0 <= id < |a.history| ensures GrowsTo(a.history[id], b.history[id]) {
      assert Handled(a.history[id], b.history[id], id in handled, clock);
    }
    forall id | 0 <= id < |a.history| ensures b.history[id].inserted == a.history[id].inserted {
      assert Handled(a.history[id], b.history[id], id in handled, clock);
    }
    StillAwaiting(a, b, created);
  }

  /** For every sequence of events and callbacks the queue stays valid and cancelled timers stay silent. */
  method Replay(q: TimerQueue, events: seq<TimerEvent>) returns (created: seq<Timer>)
    requires q.Valid()
    modifies q, Members(q.made)
    ensures q.Valid() && Grows(old(q.history), q.history) && Awaiting(q.View(), created)
    ensures NewOnesFresh(old(q.made), q.made)
  {
    created := [];
    if events != [] {
      created := Replay(q, events[..|events| - 1]);
      ghost var before := q.history;
      created := Step(q, events[|events| - 1], created);
      GrowsIsTransitive(old(q.history), before, q.history);
    }
  }

  /** Every timer made since is a new object. */
  twostate predicate NewOnesFresh(made: seq<Timer>, new made': seq<Timer>) {
    made <= made' && fresh(Members(made') - Members(made))
  }

  /** One event; `created` holds the timers whose insertion task has not run yet. */
  method Step(q: TimerQueue, event: TimerEvent, created: seq<Timer>) returns (created': seq<Timer>)
    requires q.Valid() && Awaiting(q.View(), created)
    modifies q, Members(q.made)
    ensures q.Valid() && Grows(old(q.history), q.history) && Awaiting(q.View(), created')
    ensures NewOnesFresh(old(q.made), q.made)
  {
    match event {
      case CreateElsewhere(when, interval) => created' := DoCreate(q, when, interval, created);
      case InsertNext => created' := DoInsert(q, created);
      case AddHere(when, interval) => created' := DoAdd(q, when, interval, created);
      case CancelHere(id) => created' := DoCancel(q, id, created);
      case Fire => created' := DoFire(q, created);
    }
  }

  method DoCreate(q: TimerQueue, when: Timestamp, interval: int, created: seq<Timer>) returns (created': seq<Timer>)
    requires q.Valid() && Awaiting(q.View(), created)
    modifies q
    ensures q.Valid() && Grows(old(q.history), q.history) && Awaiting(q.View(), created')
    ensures NewOnesFresh(old(q.made), q.made)
  {
    ghost var before := q.View();
    var t := q.CreateTimer(when, interval, {}, {});
    CreateGrows(before, t, when, created);
    created' := created + [t];
  }

  method DoInsert(q: TimerQueue, created: seq<Timer>) returns (created': seq<Timer>)
    requires q.Valid() && Awaiting(q.View(), created)
    modifies q
    ensures q.Valid() && Grows(old(q.history), q.history) && Awaiting(q.View(), created')
    ensures NewOnesFresh(old(q.made), q.made)
  {
    created' := created;
    if created != [] {
      assert Uninserted(q.View(), created[0]);
      q.InsertTimer(created[0], {}, {});
      InsertGrows(old(q.View()), created);
      created' := created[1..];
    }
  }

  method DoAdd(q: TimerQueue, when: Timestamp, interval: int, created: seq<Timer>) returns (created': seq<Timer>)
    requires q.Valid() && Awaiting(q.View(), created)
    modifies q
    ensures q.Valid() && Grows(old(q.history), q.history) && Awaiting(q.View(), created')
    ensures NewOnesFresh(old(q.made), q.made)
  {
    var id := q.AddTimer(when, interval, {}, {});
    AddGrows(old(q.View()), q.made[id], when, created);
    created' := created;
  }

  method DoCancel(q: TimerQueue, id: TimerId, created: seq<Timer>) returns (created': seq<Timer>)
    requires q.Valid() && Awaiting(q.View(), created)
    modifies q
    ensures q.Valid() && Grows(old(q.history), q.history) && Awaiting(q.View(), created')
    ensures NewOnesFresh(old(q.made), q.made)
  {
    q.EraseTimer(id, {}, {});
    if id in old(q.timersById) {
      EraseGrows(old(q.View()), id, created);
    }
    created' := created;
  }

  method DoFire(q: TimerQueue, created: seq<Timer>) returns (created': seq<Timer>)
    requires q.Valid() && Awaiting(q.View(), created)
    modifies q, Members(q.made)
    ensures q.Valid() && Grows(old(q.history), q.history) && Awaiting(q.View(), created')
    ensures NewOnesFresh(old(q.made), q.made)
  {
    var now := q.OnTimerfdRead();
    FireGrows(old(q.View()), q.View(), Due(old(q.timersById), old(q.history), now), created, q.clock);
    created' := created;
  }

  function Members(s: seq<Timer>): set<Timer> { set t | t in s }

  function Ids(s: seq<Timer>): set<TimerId> { set t | t in s :: t.id }

  predicate Distinct(s: seq<Timer>) { forall i, j :: 0 <= i < j < |s| ==> s[i] != s[j] }

  lemma MembersSnoc(s: seq<Timer>, t: Timer)
    ensures Members(s + [t]) == Members(s) + {t}
  {
  }

  lemma MembersTail(s: seq<Timer>)
    requires Distinct(s) && s != []
    ensures Members(s[1..]) == Members(s) - {s[0]}
  {
    forall t | t in s && t != s[0] ensures t in s[1..] {
      var i :| 0 <= i < |s| && s[i] == t;
      assert s[1..][i - 1] == t;
    }
  }

  /** All are live timers of the index. */
  ghost predicate AllIn(expired: seq<Timer>, start: Index) {
    forall t {:trigger t in expired} :: t in expired ==> t.id in start.byId && start.byId[t.id] == t && t.id < |start.history|
  }

  lemma NewId(expired: seq<Timer>, i: nat, start: Index)
    requires i < |expired| && Distinct(expired) && AllIn(expired, start)
    ensures expired[i].id !in Ids(expired[..i])
  {
    forall k | 0 <= k < i ensures expired[k].id != expired[i].id {
      assert expired[k] in expired && expired[i] in expired;
    }
  }

  lemma NextOfBatch(s: seq<Timer>, i: nat)
    requires i < |s| && Distinct(s)
    ensures s[i] in Members(s[i..]) && s[i] in Members(s)
    ensures Members(s[i + 1..]) == Members(s[i..]) - {s[i]}
    ensures Ids(s[..i + 1]) == Ids(s[..i]) + {s[i].id}
  {
    assert s[i..][1..] == s[i + 1..];
    MembersTail(s[i..]);
    assert s[..i + 1] == s[..i] + [s[i]];
  }

  /** The ids of the live timers whose time has come. */
  function Due(byId: map<TimerId, Timer>, history: seq<Runs>, now: Timestamp): set<TimerId> {
    set id | id in byId && id < |history| && history[id].expiration <= now
  }

  lemma DueMeaning(byId: map<TimerId, Timer>, history: seq<Runs>, now: Timestamp, id: TimerId)
    ensures id in Due(byId, history, now) <==> id in byId && id < |history| && history[id].expiration <= now
  {
  }

  /** The entries gone from the expiry index are those of `expired`, all due. */
  ghost predicate Collected(start: Index, left: set<(Timestamp, Timer)>, expired: seq<Timer>, now: Timestamp) {
    && Distinct(expired) && left <= start.queue
    && (forall e :: e in start.queue && e !in left ==> e.1 in expired)
    && (forall t :: t in expired ==> t.id in start.byId && start.byId[t.id] == t
                                     && t.id < |start.history| && start.history[t.id].expiration <= now)
  }

  /** The batch is in order of expiration, and nothing left behind comes before it. */
  ghost predicate InOrder(history: seq<Runs>, expired: seq<Timer>, left: set<(Timestamp, Timer)>) {
    && (forall t :: t in expired ==> t.id < |history|)
    && (forall i, j :: 0 <= i < j < |expired| ==> history[expired[i].id].expiration <= history[expired[j].id].expiration)
    && (forall t, e :: t in expired && e in left ==> history[t.id].expiration <= e.0)
  }

  lemma InOrderOneMore(history: seq<Runs>, expired: seq<Timer>, left: set<(Timestamp, Timer)>, e: (Timestamp, Timer))
    requires InOrder(history, expired, left) && e in left && forall f :: f in left ==> e.0 <= f.0
    requires e.1.id < |history| && history[e.1.id].expiration == e.0
    ensures InOrder(history, expired + [e.1], left - {e})
  {
    var longer := expired + [e.1];
    forall i, j | 0 <= i < j < |longer|
      ensures history[longer[i].id].expiration <= history[longer[j].id].expiration
    {
      assert longer[i] in expired;
    }
  }

  lemma CollectedOneMore(
    start: Index, left: set<(Timestamp, Timer)>, expired: seq<Timer>, now: Timestamp, e: (Timestamp, Timer))
    requires Collected(start, left, expired, now) && e in left && e.1 !in Members(expired)
    requires e.1.id in start.byId && start.byId[e.1.id] == e.1
    requires e.1.id < |start.history| && start.history[e.1.id].expiration <= now
    ensures Collected(start, left - {e}, expired + [e.1], now)
    ensures Members(expired + [e.1]) == Members(expired) + {e.1}
  {
    MembersSnoc(expired, e.1);
    forall f | f in start.queue && f !in left - {e} ensures f.1 in expired + [e.1] {
      if f != e { assert f !in left; }
    }
    forall i, j | 0 <= i < j < |expired| + 1 ensures (expired + [e.1])[i] != (expired + [e.1])[j] {
      if j == |expired| { assert expired[i] in Members(expired); }
    }
  }

  lemma DueIsExpired(start: Index, expired: seq<Timer>, now: Timestamp, left: set<(Timestamp, Timer)>)
    requires Identified(start.byId, start.made, start.history) && Coupled(start.queue, start.byId, start.history, {})
    requires Collected(start, left, expired, now) && forall e :: e in left ==> now < e.0
    ensures Ids(expired) == Due(start.byId, start.history, now)
    ensures Members(expired) <= Members(start.made)
  {
    forall id | id in Due(start.byId, start.history, now) ensures id in Ids(expired) {
      var e := Entry(start.history, start.byId[id]);
      assert e in start.queue && start.byId[id].id == id;
      assert e.1 in expired;
    }
  }

  /** One start more than before. */
  ghost predicate RanOnce(r: Runs, r': Runs) {
    |r'.starts| == |r.starts| + 1 && r.starts <= r'.starts && |r'.ends| == |r.ends| + 1
  }

  /**
   * Since `start`, each handled timer ran exactly once or was cancelled before it could, no other
   * timer ran, and a timer left the id index only by being cancelled or as a handled one-shot.
   */
  ghost predicate Handles(start: Index, ix: Index, handled: set<TimerId>, clock: Timestamp) {
    && |start.history| <= |ix.history|
    && (forall id {:trigger ix.history[id]} :: 0 <= id < |start.history| ==>
      Handled(start.history[id], ix.history[id], id in handled, clock))
    && (forall id :: |start.history| <= id < |ix.history| ==> ix.history[id].starts == [])
    && (forall id :: id in start.byId && id !in ix.byId && id < |start.history| ==>
      ix.history[id].cancelledAfter.Some? || (id in handled && start.history[id].interval <= 0))
  }

  ghost predicate Handled(r: Runs, r': Runs, handled: bool, clock: Timestamp) {
    && r'.interval == r.interval && r'.inserted == r.inserted
    && (r.cancelledAfter.Some? ==> r'.cancelledAfter == r.cancelledAfter)
    && (if handled && RanOnce(r, r') then r'.interval > 0 && r'.cancelledAfter.None? ==> DueAgain(r', clock)
        else r'.starts == r.starts && r'.ends == r.ends && r'.expiration == r.expiration && (handled ==> r'.cancelledAfter.Some?))
  }

  /** The next expiration is one interval after a reading taken since the last run ended. */
  ghost predicate DueAgain(r: Runs, clock: Timestamp) {
    r.ends != [] && r.ends[|r.ends| - 1] + r.interval <= r.expiration <= clock + r.interval
  }

  lemma GoneIsHandled(start: Index, ix: Index, handled: set<TimerId>, id: TimerId, clock: Timestamp)
    requires Handles(start, ix, handled, clock) && id in start.byId && id !in ix.byId && id < |start.history| && id !in handled
    ensures Handles(start, ix, handled + {id}, clock)
  {
    forall k | 0 <= k < |start.history| ensures Handled(start.history[k], ix.history[k], k in handled + {id}, clock) {
      assert Handled(start.history[k], ix.history[k], k in handled, clock);
    }
  }

  lemma HandlesNothing(start: Index, ix: Index, clock: Timestamp)
    requires ix == start.(queue := ix.queue)
    ensures Handles(start, ix, {}, clock)
  {
  }

  /** Readings only grow, so what was due again still is. */
  lemma HandlesLater(start: Index, ix: Index, handled: set<TimerId>, clock: Timestamp, later: Timestamp)
    requires Handles(start, ix, handled, clock) && clock <= later
    ensures Handles(start, ix, handled, later)
  {
    forall k | 0 <= k < |start.history| ensures Handled(start.history[k], ix.history[k], k in handled, later) {
      assert Handled(start.history[k], ix.history[k], k in handled, clock);
    }
  }

  /** After its callback only the timer's own expiration changes, and only if it goes back into the queue. */
  ghost predicate Disposed(ran: Index, after: Index, id: TimerId, clock: Timestamp) {
    && |after.history| == |ran.history| && id < |ran.history|
    && (forall k {:trigger after.history[k]} :: 0 <= k < |after.history| && k != id ==> after.history[k] == ran.history[k])
    && after.history[id].(expiration := 0) == ran.history[id].(expiration := 0)
    && (id in ran.byId && ran.history[id].interval > 0 ==> DueAgain(after.history[id], clock))
    && (forall k {:trigger k in after.byId} :: k in ran.byId && (k != id || ran.history[k].interval > 0) ==> k in after.byId)
  }

  lemma HandlesOneMore(
    start: Index, before: Index, ran: Index, after: Index, handled: set<TimerId>, id: TimerId, clock: Timestamp)
    requires Handles(start, before, handled, clock) && id < |start.history| && id !in handled && id in before.byId
    requires ran.Ran(before, id) && Disposed(ran, after, id, clock)
    requires forall k :: k in before.byId ==> k < |before.history|
    ensures Handles(start, after, handled + {id}, clock)
  {
    forall k | 0 <= k < |start.history|
      ensures Handled(start.history[k], after.history[k], k in handled + {id}, clock)
    {
      assert Handled(start.history[k], before.history[k], k in handled, clock);
      if k != id {
        assert after.history[k] == ran.history[k] && SameRuns(before.history[k], ran.history[k]);
      }
    }
    forall k | |start.history| <= k < |after.history| ensures after.history[k].starts == [] {
      assert after.history[k] == ran.history[k];
      if k < |before.history| { assert SameRuns(before.history[k], ran.history[k]); }
    }
    forall k | k in start.byId && k !in after.byId && k < |start.history|
      ensures after.history[k].cancelledAfter.Some? || (k in handled + {id} && start.history[k].interval <= 0)
    {
      assert Handled(start.history[k], before.history[k], k in handled, clock);
      if k != id { assert after.history[k] == ran.history[k] && SameRuns(before.history[k], ran.history[k]); }
    }
  }

  lemma {:induction false} HasLeast(s: set<(Timestamp, Timer)>)
    requires s != {}
    ensures exists e :: e in s && forall f :: f in s ==> e.0 <= f.0
  {
    var x :| x in s;
    if s != {x} {
      var rest := s - {x};
      HasLeast(rest);
      var e :| e in rest && forall f :: f in rest ==> e.0 <= f.0;
      if x.0 <= e.0 {
        assert forall f :: f in s ==> x.0 <= f.0;
      } else {
        assert forall f :: f in s ==> e.0 <= f.0;
      }
    }
  }
}
