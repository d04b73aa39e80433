/** What a timer has done so far, and the bounds that follow from how its runs are spaced. */
module TimerHistory {
  import opened Common

  /** Nanoseconds of the steady clock. */
  type Timestamp = int

  const MILLISECOND: int := 1_000_000
  const SECOND: int := 1_000_000_000

  /** One timer's record: what it waits for, its runs, and how many it had had when it was cancelled. */
  datatype Runs = Runs(
    interval: int, expiration: Timestamp, inserted: bool,
    starts: seq<Timestamp>, ends: seq<Timestamp>, cancelledAfter: Option<nat>)

  /** Each run ends after it starts, and the next starts at least `interval` after the end. */
  ghost predicate Spaced(r: Runs) {
    && |r.ends| <= |r.starts| <= |r.ends| + 1
    && (forall i :: 0 <= i < |r.ends| ==> r.starts[i] <= r.ends[i])
    && (forall i :: 0 <= i < |r.ends| && i + 1 < |r.starts| ==> r.ends[i] + r.interval <= r.starts[i + 1])
  }

  /** A one-shot timer runs at most once, and no timer runs after it was cancelled. */
  ghost predicate Sound(r: Runs, clock: Timestamp) {
    && Spaced(r)
    && (forall i :: 0 <= i < |r.starts| ==> r.starts[i] <= clock)
    && (forall i :: 0 <= i < |r.ends| ==> r.ends[i] <= clock)
    && (r.interval <= 0 ==> |r.starts| <= 1)
    && (r.cancelledAfter.Some? ==> r.inserted && r.cancelledAfter.value == |r.starts|)
    && (r.starts != [] ==> r.inserted)
  }

  /** Not running, and a start at its expiration or later will keep the spacing. */
  ghost predicate MayWait(r: Runs) {
    && |r.ends| == |r.starts|
    && (if r.interval > 0 then r.ends != [] ==> r.ends[|r.ends| - 1] + r.interval <= r.expiration else r.starts == [])
  }

  lemma {:induction false} StartsFarApart(r: Runs, i: nat, j: nat)
    requires Spaced(r) && r.interval > 0 && i <= j < |r.starts|
    ensures (j - i) * r.interval <= r.starts[j] - r.starts[i]
  {
    if i < j {
      StartsFarApart(r, i, j - 1);
      StartAfterStart(r, j);
      OneMore(j - 1 - i, r.interval, r.starts[j - 1] - r.starts[i], r.starts[j] - r.starts[i]);
    }
  }

  lemma StartAfterStart(r: Runs, j: nat)
    requires Spaced(r) && 0 < j < |r.starts|
    ensures r.starts[j - 1] + r.interval <= r.starts[j]
  {
    assert r.starts[j - 1] <= r.ends[j - 1];
  }

  /**
   * A repeating timer rescheduled to its interval after a reading taken when its last run was over
   * may wait, and wherever it then starts, no earlier than that, its starts stay spaced.
   */
  lemma RescheduleKeepsSpacing(r: Runs, now: Timestamp, start: Timestamp)
    requires Spaced(r) && r.interval > 0 && |r.starts| == |r.ends| > 0 && r.ends[|r.ends| - 1] <= now
    requires now + r.interval <= start
    ensures MayWait(r.(expiration := now + r.interval))
    ensures Spaced(r.(expiration := now + r.interval, starts := r.starts + [start]))
  {
  }

  lemma OneMore(k: nat, d: int, x: int, y: int)
    requires k * d <= x && x + d <= y
    ensures (k + 1) * d <= y
  {
  }

  /** The starts that fall in `[from, from + width]`. */
  function StartsIn(starts: seq<Timestamp>, from: Timestamp, width: nat): nat {
    if starts == [] then 0 else
      StartsIn(starts[..|starts| - 1], from, width) +
      if from <= starts[|starts| - 1] <= from + width then 1 else 0
  }

  function Shorter(r: Runs): Runs
    requires r.starts != []
  {
    var n := |r.starts| - 1;
    r.(starts := r.starts[..n], ends := if |r.ends| > n then r.ends[..n] else r.ends)
  }

  lemma ShorterSpaced(r: Runs)
    requires Spaced(r) && r.starts != []
    ensures Spaced(Shorter(r))
  {
  }

  /** Start `i` is in the window or before it, and at least `k - 1` intervals from its left edge. */
  ghost predicate Reaches(r: Runs, from: Timestamp, width: nat, k: nat, i: nat) {
    i < |r.starts| && r.starts[i] <= from + width && (k - 1) * r.interval <= r.starts[i] - from
  }

  lemma NextReaches(r: Runs, from: Timestamp, width: nat, k: nat, i: nat)
    requires Spaced(r) && r.interval > 0 && k >= 1 && Reaches(r, from, width, k, i)
    requires i < |r.starts| - 1 && r.starts[|r.starts| - 1] <= from + width
    ensures Reaches(r, from, width, k + 1, |r.starts| - 1)
  {
    var n := |r.starts| - 1;
    StartsFarApart(r, i, n);
    StepOn(k, n - i, r.interval, r.starts[i] - from, r.starts[n] - from);
  }

  /** Among `k` starts in a window one is `k - 1` intervals or more from the window's left edge. */
  lemma {:induction false} LastInWindow(r: Runs, from: Timestamp, width: nat)
    requires Spaced(r) && r.interval > 0 && StartsIn(r.starts, from, width) > 0
    ensures exists i: nat :: Reaches(r, from, width, StartsIn(r.starts, from, width), i)
    decreases |r.starts|
  {
    var n, before := |r.starts| - 1, Shorter(r);
    var k := StartsIn(before.starts, from, width);
    ShorterSpaced(r);
    assert before.starts == r.starts[..n];
    if k == 0 {
      assert StartsIn(r.starts, from, width) == 1;
      assert Reaches(r, from, width, 1, n);
    } else {
      LastInWindow(before, from, width);
      var i: nat :| Reaches(before, from, width, k, i);
      assert Reaches(r, from, width, k, i);
      if from <= r.starts[n] <= from + width {
        NextReaches(r, from, width, k, i);
        assert StartsIn(r.starts, from, width) == k + 1 && Reaches(r, from, width, k + 1, n);
      } else {
        assert StartsIn(r.starts, from, width) == k && Reaches(r, from, width, k, i);
      }
    }
  }

  lemma StepOn(k: nat, steps: nat, d: nat, x: int, y: int)
    requires k >= 1 && steps >= 1 && (k - 1) * d <= x && steps * d <= y - x
    ensures k * d <= y
  {
    assert steps * d == d + (steps - 1) * d;
    assert (steps - 1) * d >= 0;
    assert k * d == (k - 1) * d + d;
  }

  /** At most `width / interval + 1` runs of a repeating timer start in any window of that width. */
  lemma WindowBound(r: Runs, from: Timestamp, width: nat)
    requires Spaced(r) && r.interval > 0
    ensures StartsIn(r.starts, from, width) <= width / r.interval + 1
  {
    var k := StartsIn(r.starts, from, width);
    if k > 0 {
      LastInWindow(r, from, width);
      QuotientBound(k - 1, r.interval, width);
    }
  }

  lemma QuotientBound(n: nat, d: int, w: nat)
    requires d > 0 && n * d <= w
    ensures n <= w / d
  {
    var q := w / d;
    assert w < (q + 1) * d;
    if n > q {
      Times(q + 1, n, d);
    }
  }

  lemma Times(a: nat, b: nat, d: int)
    requires a <= b && d > 0
    ensures a * d <= b * d
  {
    assert (b - a) * d >= 0;
  }

  /** The pieces of `timespec`. */
  datatype Timespec = Timespec(sec: int, nsec: int)

  /** The relative delay handed to the timerfd: at least a millisecond, split exactly, never zero. */
  function ToTimespec(duration: int): (ts: Timespec)
    ensures ts.sec * 1_000_000_000 + ts.nsec == Max(duration, 1_000_000)
    ensures ts.sec >= 0 && 0 <= ts.nsec < 1_000_000_000 && ts != Timespec(0, 0)
  {
    var d := if duration < MILLISECOND then MILLISECOND else duration;
    var sec := d / SECOND;
    Timespec(sec, d - sec * SECOND)
  }
}
