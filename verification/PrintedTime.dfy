/** What the clocks of a run demand of the times that its samples print. */
module PrintedTime {
  import opened Wrappers
  import opened CheckpointClock

  /** The interval that a checkpoint should print: for the first one, and one less than a
      millisecond after the one before, the configured one; else the whole milliseconds
      that passed. */
  predicate Measures(ms: int, i: nat, clocks: seq<int>, bucketMs: int)
    requires i < |clocks|
  {
    if i == 0 || clocks[i] - clocks[i - 1] < 1_000_000 then ms == bucketMs
    else 0 <= clocks[i] - clocks[i - 1] - 1_000_000 * ms < 1_000_000
  }

  /** The clock at the checkpoint before. */
  function ClockBefore(clocks: seq<int>, i: nat): Option<int>
    requires i < |clocks|
  {
    if i == 0 then None else Some(clocks[i - 1])
  }

  lemma IntervalIff(clocks: seq<int>, i: nat, bucketMs: int, ms: int)
    requires bucketMs > 0 && i < |clocks|
    ensures ms == Interval(ClockBefore(clocks, i), clocks[i], bucketMs) <==> Measures(ms, i, clocks, bucketMs)
  {
    if i > 0 {
      var passed := clocks[i] - clocks[i - 1];
      assert passed == 1_000_000 * (passed / 1_000_000) + passed % 1_000_000;
    }
  }

  function SumMs(ms: seq<int>): int {
    if ms == [] then 0 else SumMs(ms[..|ms| - 1]) + ms[|ms| - 1]
  }

  lemma {:induction false} MeasuresCover(clocks: seq<int>, ms: seq<int>, bucketMs: int)
    requires |clocks| == |ms| + 1
    requires forall i :: 0 <= i < |ms| ==> Measures(ms[i], i + 1, clocks, bucketMs)
    requires forall i :: 0 < i < |clocks| ==> clocks[i] - clocks[i - 1] >= 1_000_000
    ensures 0 <= clocks[|ms|] - clocks[0] - 1_000_000 * SumMs(ms) <= |ms| * 999_999
  {
    if ms != [] {
      var n := |ms| - 1;
      forall i | 0 <= i < n ensures Measures(ms[..n][i], i + 1, clocks[..n + 1], bucketMs) {
        assert Measures(ms[i], i + 1, clocks, bucketMs);
      }
      MeasuresCover(clocks[..n + 1], ms[..n], bucketMs);
      assert Measures(ms[n], n + 1, clocks, bucketMs);
    }
  }

  function Flat<T>(parts: seq<seq<T>>): seq<T> {
    if parts == [] then [] else Flat(parts[..|parts| - 1]) + parts[|parts| - 1]
  }

  lemma {:induction false} InFlatIff<T>(parts: seq<seq<T>>, x: T)
    ensures x in Flat(parts) <==> exists i :: 0 <= i < |parts| && x in parts[i]
  {
    if parts != [] {
      var n := |parts| - 1;
      InFlatIff(parts[..n], x);
      assert x in parts[n] || x in Flat(parts[..n]) <==> x in Flat(parts);
      if i :| 0 <= i < |parts| && x in parts[i] {
        assert i < n ==> x in parts[..n][i];
      }
    }
  }
}
