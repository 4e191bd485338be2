/**
 * The frame timer (client/src/time.rs): the time since the previous update
 * and a frame-rate counter that is reported, and reset, when more than a
 * second has passed since the last report. Instants are integers in
 * nanoseconds, passed in by the caller in place of `Instant::now()`.
 */
module FrameTime {
  /** `Duration::from_secs(1)`, in nanoseconds. */
  const SECOND: nat := 1_000_000_000

  /** `later - earlier` on `Instant`: the elapsed time, zero if `later` is not after `earlier`. */
  function Elapsed(later: int, earlier: int): (d: nat)
    ensures later >= earlier ==> d == later - earlier
    ensures later < earlier ==> d == 0
  {
    if later >= earlier then later - earlier else 0
  }

  /**
   * The index of the last update among `updates` (the instants of all
   * updates so far) that reported the frame rate, or -1 when none did;
   * `shown` is the instant the report clock started from.
   */
  function LastReport(shown: int, updates: seq<int>): (k: int)
    ensures -1 <= k < |updates|
    decreases |updates|, 0
  {
    if updates == [] then -1
    else if Reports(shown, updates[..|updates| - 1], updates[|updates| - 1]) then |updates| - 1
    else LastReport(shown, updates[..|updates| - 1])
  }

  /** The instant of the last report, or `shown` when there was none. */
  function LastShow(shown: int, updates: seq<int>): int
    decreases |updates|, 1
  {
    var k := LastReport(shown, updates);
    if k < 0 then shown else updates[k]
  }

  /** An update at `now`, after `before`, reports: more than a second has passed since the last report. */
  predicate Reports(shown: int, before: seq<int>, now: int)
    decreases |before|, 2
  {
    Elapsed(now, LastShow(shown, before)) > SECOND
  }

  /** No update after the last report reported. */
  lemma {:induction false} NoReportAfterLast(shown: int, updates: seq<int>, j: nat)
    requires LastReport(shown, updates) < j < |updates|
    ensures !Reports(shown, updates[..j], updates[j])
  {
    var n := |updates| - 1;
    assert updates[..n][..j] == updates[..j];
    if j < n {
      NoReportAfterLast(shown, updates[..n], j);
      assert updates[..n][j] == updates[j];
    }
  }

  /** The last report is one: the update at that index did report. */
  lemma {:induction false} LastReportReported(shown: int, updates: seq<int>)
    requires LastReport(shown, updates) >= 0
    ensures var k := LastReport(shown, updates); Reports(shown, updates[..k], updates[k])
  {
    var n := |updates| - 1;
    if !Reports(shown, updates[..n], updates[n]) {
      LastReportReported(shown, updates[..n]);
      var k := LastReport(shown, updates);
      assert updates[..n][..k] == updates[..k] && updates[..n][k] == updates[k];
    }
  }

  /** A report at index `j` makes the last report at least `j`. */
  lemma {:induction false} LastReportAtLeast(shown: int, updates: seq<int>, j: nat)
    requires j < |updates| && Reports(shown, updates[..j], updates[j])
    ensures LastReport(shown, updates) >= j
  {
    var n := |updates| - 1;
    if j < n && !Reports(shown, updates[..n], updates[n]) {
      assert updates[..n][..j] == updates[..j] && updates[..n][j] == updates[j];
      LastReportAtLeast(shown, updates[..n], j);
    }
  }

  /** The clock never runs backwards. */
  predicate Monotone(updates: seq<int>) {
    forall a, b | 0 <= a < b < |updates| :: updates[a] <= updates[b]
  }

  /** On a clock that never runs backwards, any two reports are more than a second apart. */
  lemma ReportsMoreThanASecondApart(shown: int, updates: seq<int>, j: nat, k: nat)
    requires Monotone(updates) && j < k < |updates|
    requires Reports(shown, updates[..j], updates[j])
    requires Reports(shown, updates[..k], updates[k])
    ensures updates[k] - updates[j] > SECOND
  {
    var before := updates[..k];
    assert before[..j] == updates[..j] && before[j] == updates[j];
    LastReportAtLeast(shown, before, j);
    var m := LastReport(shown, before);
    assert LastShow(shown, before) == updates[m];
  }

  /**
   * `Time`. Besides the fields of the source, the ghost fields `shown` and
   * `updates` keep the instant the report clock started from and the
   * instant of every update since, in order; `Valid` ties the counters to
   * them.
   */
  class Time {
    var delta: nat
    var lastUpdate: int
    var frameRate: nat
    var frameRateCounter: nat
    var lastFrameRateShow: int
    ghost var shown: int
    ghost var updates: seq<int>

    /**
     * The counter is the number of updates since the last report (or since
     * construction), the report instant is that of the last report, and the
     * last update instant is that of the last update.
     */
    ghost predicate Valid()
      reads this
    {
      && frameRateCounter == |updates| - 1 - LastReport(shown, updates)
      && lastFrameRateShow == LastShow(shown, updates)
      && (updates != [] ==> lastUpdate == updates[|updates| - 1])
    }

    /**
     * `Time::default`, given the two readings of `Instant::now()` it takes:
     * no delta, no frame rate, no frames counted.
     */
    constructor (now: int, showNow: int)
      ensures Valid() && updates == [] && shown == showNow
      ensures delta == 0 && frameRate == 0 && frameRateCounter == 0
      ensures lastUpdate == now && lastFrameRateShow == showNow
    {
      delta := 0;
      lastUpdate := now;
      frameRate := 0;
      frameRateCounter := 0;
      lastFrameRateShow := showNow;
      shown := showNow;
      updates := [];
    }

    /**
     * `update`, at instant `now`: the delta is the time since the previous
     * update and the frame is counted; when more than a second has passed
     * since the last report, the count becomes the frame rate and counting
     * starts again from `now`.
     */
    method Update(now: int)
      requires Valid()
      modifies this
      ensures Valid() && updates == old(updates) + [now] && shown == old(shown)
      ensures delta == Elapsed(now, old(lastUpdate)) && lastUpdate == now
      ensures Elapsed(now, old(lastFrameRateShow)) > SECOND ==>
        && frameRate == old(frameRateCounter) + 1
        && frameRateCounter == 0
        && lastFrameRateShow == now
      ensures Elapsed(now, old(lastFrameRateShow)) <= SECOND ==>
        && frameRate == old(frameRate)
        && frameRateCounter == old(frameRateCounter) + 1
        && lastFrameRateShow == old(lastFrameRateShow)
    {
      delta := Elapsed(now, lastUpdate);
      frameRateCounter := frameRateCounter + 1;
      if Elapsed(now, lastFrameRateShow) > SECOND {
        frameRate := frameRateCounter;
        lastFrameRateShow := now;
        frameRateCounter := 0;
      }
      lastUpdate := now;
      updates := updates + [now];
      assert updates[..|updates| - 1] == old(updates);
    }
  }
}
