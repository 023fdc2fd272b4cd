/** The interval a checkpoint puts on its rows: measured, not assumed. */
module CheckpointClock {
  import opened Wrappers

  const NS_PER_MS := 1_000_000

  function BucketStart(now: int, bucketMs: int): int
    requires bucketMs > 0
  {
    now / (bucketMs * NS_PER_MS) * (bucketMs * NS_PER_MS)
  }

  /** The interval of a checkpoint at `now`, `last` being the clock of the one before.
      However the clock jumps it is positive, so a rate is always defined. */
  function Interval(last: Option<int>, now: int, bucketMs: int): (ms: int)
    requires bucketMs > 0
    ensures ms > 0
  {
    if last.Some? && (now - last.value) / NS_PER_MS > 0 then (now - last.value) / NS_PER_MS else bucketMs
  }

  class Clock {
    const bucketMs: int
    var last: Option<int>

    constructor (bucketMs: int)
      ensures this.bucketMs == bucketMs && last == None
    {
      this.bucketMs := bucketMs;
      last := None;
    }

    method Tick(now: int) returns (bucketStart: int, elapsedMs: int)
      requires bucketMs > 0
      modifies this
      ensures last == Some(now)
      ensures bucketStart == BucketStart(now, bucketMs)
      ensures elapsedMs == Interval(old(last), now, bucketMs)
    {
      bucketStart := BucketStart(now, bucketMs);
      var previous := last;
      last := Some(now);
      elapsedMs := bucketMs;
      if previous.Some? {
        var measured := (now - previous.value) / NS_PER_MS;
        if measured > 0 {
          elapsedMs := measured;
        }
      }
    }
  }

  /** `start` is the start of the bucket of `now`: a multiple of the bucket length, at most
      `now`, and less than one bucket before. */
  predicate StartsBucketOf(start: int, now: int, bucketMs: int) {
    bucketMs > 0 && start % (bucketMs * 1_000_000) == 0 && start <= now < start + bucketMs * 1_000_000
  }

  /** A bucket start is the only multiple of the bucket length that is at most `now` and
      less than one bucket before it. */
  lemma BucketStartIsTheOnlyOne(now: int, bucketMs: int, start: int)
    requires bucketMs > 0
    ensures StartsBucketOf(start, now, bucketMs) <==> start == BucketStart(now, bucketMs)
  {
    var b := bucketMs * NS_PER_MS;
    var q := now / b;
    assert now == b * q + now % b;
    MultipleOf(q, b);
    if StartsBucketOf(start, now, bucketMs) {
      var p := start / b;
      assert start == b * p + start % b;
      if p < q {
        NextMultiple(p, q, b);
      } else if q < p {
        NextMultiple(q, p, b);
      }
    }
  }

  lemma {:induction false} AtLeastOnce(b: int, x: int)
    requires b > 0 && x >= 1
    ensures b * x >= b
    decreases x
  {
    if x > 1 {
      AtLeastOnce(b, x - 1);
      assert b * x == b * (x - 1) + b;
    }
  }

  lemma NextMultiple(p: int, q: int, b: int)
    requires p < q && b > 0
    ensures b * p + b <= b * q
  {
    AtLeastOnce(b, q - p);
    assert b * (q - p) == b * q - b * p;
  }

  lemma MultipleOf(q: int, b: int)
    requires b > 0
    ensures (b * q) % b == 0
  {
    var d := (b * q) / b;
    assert b * q == b * d + (b * q) % b;
    if d < q {
      NextMultiple(d, q, b);
    } else if q < d {
      NextMultiple(q, d, b);
    }
  }

  /** The sum of the intervals of all checkpoints but the first. */
  function MeasuredMs(clocks: seq<int>, bucketMs: int): int
    requires bucketMs > 0
  {
    if |clocks| < 2 then 0
    else
      var n := |clocks| - 1;
      MeasuredMs(clocks[..n], bucketMs) + Interval(Some(clocks[n - 1]), clocks[n], bucketMs)
  }

  predicate Apart(clocks: seq<int>) {
    forall i :: 0 < i < |clocks| ==> clocks[i - 1] + NS_PER_MS <= clocks[i]
  }

  /** An interval is never longer than the time that passed, and short of it by less
      than a millisecond, exactly when at least a millisecond passed. */
  lemma IntervalIsHonestIffApart(before: int, now: int, bucketMs: int)
    requires bucketMs > 0
    ensures 0 <= now - before - 1_000_000 * Interval(Some(before), now, bucketMs) < 1_000_000 <==>
            before + 1_000_000 <= now
  {
    var d := now - before;
    assert d == NS_PER_MS * (d / NS_PER_MS) + d % NS_PER_MS;
  }

  /** Over n checkpoints the intervals add up to the time that passed, short by less
      than n milliseconds in all: rounding never accumulates past its per-row bound. */
  lemma {:induction false} IntervalsCoverTheRun(clocks: seq<int>, bucketMs: int)
    requires bucketMs > 0 && |clocks| > 0 && Apart(clocks)
    ensures var n := |clocks| - 1;
            var passed := clocks[n] - clocks[0];
            0 <= passed - NS_PER_MS * MeasuredMs(clocks, bucketMs) <= n * (NS_PER_MS - 1)
  {
    if |clocks| > 1 {
      var n := |clocks| - 1;
      IntervalsCoverTheRun(clocks[..n], bucketMs);
      IntervalIsHonestIffApart(clocks[n - 1], clocks[n], bucketMs);
    }
  }

  /** How far the clock was set back over the run, in all. */
  function SetBack(clocks: seq<int>): int {
    if |clocks| < 2 then 0
    else
      var n := |clocks| - 1;
      SetBack(clocks[..n]) + if clocks[n] < clocks[n - 1] then clocks[n - 1] - clocks[n] else 0
  }

  /** Whatever the clock does: the intervals add up to at least the time that passed and
      all that it was set back, but for less than a millisecond each.  A run whose clock
      was set back further than that overstates its length. */
  lemma {:induction false} SetBacksAreReported(clocks: seq<int>, bucketMs: int)
    requires bucketMs > 0 && |clocks| > 0
    ensures var n := |clocks| - 1;
            NS_PER_MS * MeasuredMs(clocks, bucketMs) >= clocks[n] - clocks[0] + SetBack(clocks) - n * (NS_PER_MS - 1)
  {
    if |clocks| > 1 {
      var n := |clocks| - 1;
      SetBacksAreReported(clocks[..n], bucketMs);
      var before, now := clocks[n - 1], clocks[n];
      IntervalIsHonestIffApart(before, now, bucketMs);
      assert Interval(Some(before), now, bucketMs) >= 1;
    }
  }

  /** Some checkpoint of a run is labelled with more time than passed if and only if two
      of them were not a millisecond apart. */
  lemma OverstatedIff(clocks: seq<int>, bucketMs: int)
    requires bucketMs > 0
    ensures (exists i :: 0 < i < |clocks| &&
              NS_PER_MS * Interval(Some(clocks[i - 1]), clocks[i], bucketMs) > clocks[i] - clocks[i - 1])
            <==> !Apart(clocks)
  {
    forall i | 0 < i < |clocks|
      ensures NS_PER_MS * Interval(Some(clocks[i - 1]), clocks[i], bucketMs) > clocks[i] - clocks[i - 1] <==>
              clocks[i - 1] + NS_PER_MS > clocks[i]
    {
      IntervalIsHonestIffApart(clocks[i - 1], clocks[i], bucketMs);
      assert Interval(Some(clocks[i - 1]), clocks[i], bucketMs) >= 1;
    }
  }
}
