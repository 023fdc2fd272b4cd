/** What the channel collectors write: exactly which samples, field by field, and the
    intervals they print. */
module ChannelReports {
  import opened Wrappers
  import opened Checkpoint
  import opened CheckpointRuns
  import opened CheckpointClock
  import opened PrintedTime
  import opened Addresses
  import opened ChannelHooks
  import opened ChannelCollectors

  /** The filter's fields each ask for one field of the sample, if they ask at all. */
  predicate Passes(f: ChannelSampleFilter, s: ChannelSample) {
    && (f.channel.Some? ==> f.channel == Some(s.channel)) && (f.unit.Some? ==> f.unit == Some(s.unit))
    && (f.host.Some? ==> f.host == Some(s.host)) && (f.status.Some? ==> f.status == Some(s.status))
  }

  /** The endpoint is the peer; on UDP (17) each part of it that is missing is taken from
      the socket's own address. */
  predicate TellsEndpoint(proto: nat, k: FlowKey, s: ChannelSample) {
    && s.dstIp == FromBpfInt(if proto == 17 && k.dstIp4 == 0 then k.srcIp4 else k.dstIp4)
    && s.dstPort == (if proto == 17 && k.dstPort == 0 then k.srcPort else k.dstPort)
  }

  /** The sample tells of the row: its flow, its growth, and the labels of its first entry. */
  predicate TellsRow(proto: nat, r: FlowRow, s: ChannelSample) {
    && s.srcIp == FromBpfInt(r.key.srcIp4) && s.srcPort == r.key.srcPort && TellsEndpoint(proto, r.key, s)
    && s.socketId == r.key.socketCookie && s.cgroupId == r.key.cgroupId && s.proto == proto && s.delta == r.delta
    && s.hostPid == r.first.value.pid && s.ifindex == r.first.value.ifindex && s.state == r.first.value.state
  }

  /** Whose unit is that of its process at the process's first row, and whose channel, url,
      host and status are those of the unit. */
  ghost predicate Tells(cfg: Config, rows: seq<FlowRow>, proc: ProcView, j: int, s: ChannelSample) {
    && 0 <= j < |rows| && TellsRow(cfg.proto, rows[j], s)
    && UnitIsFirstAnswer(rows, proc, s) && LabelledByItsUnit(cfg.targets, s)
  }

  // ----------------------------------------------------------------- and nothing else

  lemma CatalogLabels(targets: seq<ChannelTarget>, s: ChannelSample)
    requires LabelledByItsUnit(targets, s)
    ensures var m := MatchFlow(targets, s.unit, s.dstIp, s.dstPort);
            && s.status == m.status
            && s.channel == (if m.target.Some? then m.target.value.channel else "")
            && s.url == (if m.target.Some? then m.target.value.url else "")
            && s.host == (if m.target.Some? then m.target.value.host else "")
  {
    MatchedIff(targets, s.unit, s.dstIp, s.dstPort);
    if HasUnit(targets, s.unit) {
      var i := LastExists(targets, s.unit);
      assert LabelledBy(targets[i], s);
    }
  }

  lemma SampleIff(cfg: Config, start: int, ms: int, r: FlowRow, unit: string, s: ChannelSample)
    ensures s == SampleOf(cfg, start, ms, r, unit) <==>
            && s.bucketStart == start && s.bucketMs == ms && s.unit == unit
            && TellsRow(cfg.proto, r, s) && LabelledByItsUnit(cfg.targets, s)
  {
    SampleMatches(cfg, start, ms, r, unit);
    if LabelledByItsUnit(cfg.targets, s) {
      CatalogLabels(cfg.targets, s);
    }
  }

  /** There is one first answer only. */
  lemma UnitIff(rows: seq<FlowRow>, proc: ProcView, j: nat, s: ChannelSample)
    requires j < |rows| && s.hostPid == rows[j].first.value.pid
    ensures UnitIsFirstAnswer(rows, proc, s) <==> s.unit == UnitIn(Cached(rows[..j + 1], proc), s.hostPid)
  {
    var onward := rows[..j + 1];
    CacheIsTheFirstAnswer(onward, proc);
    if s.hostPid != 0 {
      var i := FirstRowExists(onward, s.hostPid, j);
      assert FirstOfPid(rows, s.hostPid, i);
      assert Cached(onward, proc)[s.hostPid] == proc(i)(s.hostPid);
      forall k | FirstOfPid(rows, s.hostPid, k) ensures k == i {
        assert !(k < i) && !(i < k);
      }
    }
  }

  /** The same, with the cache for the first answer. */
  predicate RowTells(cfg: Config, rows: seq<FlowRow>, proc: ProcView, j: int, s: ChannelSample) {
    && 0 <= j < |rows| && TellsRow(cfg.proto, rows[j], s) && LabelledByItsUnit(cfg.targets, s)
    && s.unit == UnitIn(Cached(rows[..j + 1], proc), rows[j].first.value.pid)
  }

  predicate SomeTell(cfg: Config, rows: seq<FlowRow>, proc: ProcView, s: ChannelSample) {
    exists j :: 0 <= j < |rows| && RowTells(cfg, rows, proc, j, s)
  }

  lemma EarlierTells(cfg: Config, rows: seq<FlowRow>, proc: ProcView, n: nat, j: nat, s: ChannelSample)
    requires j < n <= |rows|
    ensures RowTells(cfg, rows[..n], proc, j, s) == RowTells(cfg, rows, proc, j, s)
  {
    assert rows[..n][..j + 1] == rows[..j + 1];
  }

  lemma OneMoreTells(cfg: Config, rows: seq<FlowRow>, proc: ProcView, s: ChannelSample)
    requires rows != []
    ensures var n := |rows| - 1;
            SomeTell(cfg, rows, proc, s) <==> SomeTell(cfg, rows[..n], proc, s) || RowTells(cfg, rows, proc, n, s)
  {
    var n := |rows| - 1;
    forall j: nat | j < n ensures RowTells(cfg, rows[..n], proc, j, s) == RowTells(cfg, rows, proc, j, s) {
      EarlierTells(cfg, rows, proc, n, j, s);
    }
  }

  lemma LastTellsIff(cfg: Config, start: int, ms: int, rows: seq<FlowRow>, proc: ProcView, s: ChannelSample)
    requires rows != []
    ensures var n := |rows| - 1;
            s == SampleOf(cfg, start, ms, rows[n], UnitIn(Cached(rows, proc), rows[n].first.value.pid)) <==>
            s.bucketStart == start && s.bucketMs == ms && RowTells(cfg, rows, proc, n, s)
  {
    var n := |rows| - 1;
    assert rows[..n + 1] == rows;
    SampleIff(cfg, start, ms, rows[n], UnitIn(Cached(rows, proc), rows[n].first.value.pid), s);
  }

  lemma {:induction false} LabelledIff(
    cfg: Config, start: int, ms: int, rows: seq<FlowRow>, proc: ProcView, s: ChannelSample)
    ensures s in Labelled(cfg, start, ms, rows, proc) <==>
            Passes(cfg.filter, s) && s.bucketStart == start && s.bucketMs == ms && SomeTell(cfg, rows, proc, s)
  {
    if rows != [] {
      LabelledIff(cfg, start, ms, rows[..|rows| - 1], proc, s);
      OneMoreTells(cfg, rows, proc, s);
      OneMoreLabelled(cfg, start, ms, rows, proc, s);
    }
  }

  lemma OneMoreLabelled(cfg: Config, start: int, ms: int, rows: seq<FlowRow>, proc: ProcView, s: ChannelSample)
    requires rows != []
    ensures var n := |rows| - 1;
            s in Labelled(cfg, start, ms, rows, proc) <==>
            || s in Labelled(cfg, start, ms, rows[..n], proc)
            || (Passes(cfg.filter, s) && s.bucketStart == start && s.bucketMs == ms && RowTells(cfg, rows, proc, n, s))
  {
    var n := |rows| - 1;
    LastTellsIff(cfg, start, ms, rows, proc, s);
    var sample := SampleOf(cfg, start, ms, rows[n], UnitIn(Cached(rows, proc), rows[n].first.value.pid));
    PassesIff(cfg.filter, sample);
  }

  lemma PassesIff(f: ChannelSampleFilter, s: ChannelSample)
    ensures f.Matches(s) <==> Passes(f, s)
  {
  }

  lemma SomeTellIff(cfg: Config, rows: seq<FlowRow>, proc: ProcView, s: ChannelSample)
    ensures SomeTell(cfg, rows, proc, s) <==> exists j :: 0 <= j < |rows| && Tells(cfg, rows, proc, j, s)
  {
    forall j: nat | j < |rows| ensures Tells(cfg, rows, proc, j, s) == RowTells(cfg, rows, proc, j, s) {
      if s.hostPid == rows[j].first.value.pid {
        UnitIff(rows, proc, j, s);
      }
    }
  }

  // --------------------------------------------------------------------- whole runs

  /** The samples that checkpoint `i` of a run writes. */
  function SamplesAt(cfg: Config, ticks: seq<Tick>, i: nat): seq<ChannelSample>
    requires cfg.bucketMs > 0 && i < |ticks|
  {
    var t, before := ticks[i], ticks[..i];
    CheckpointSamples(cfg, LastClock(before), BaselineAfter(Dumps(before)), t.now, t.dump, t.proc)
  }

  function Checkpoints(cfg: Config, ticks: seq<Tick>): seq<seq<ChannelSample>>
    requires cfg.bucketMs > 0
  {
    seq(|ticks|, i requires 0 <= i < |ticks| => SamplesAt(cfg, ticks, i))
  }

  lemma SamePrefix(cfg: Config, ticks: seq<Tick>, n: nat, i: nat)
    requires cfg.bucketMs > 0 && i < n <= |ticks|
    ensures SamplesAt(cfg, ticks[..n], i) == SamplesAt(cfg, ticks, i)
  {
    assert ticks[..n][..i] == ticks[..i];
  }

  lemma SameCheckpoints(cfg: Config, ticks: seq<Tick>)
    requires cfg.bucketMs > 0 && ticks != []
    ensures Checkpoints(cfg, ticks)[..|ticks| - 1] == Checkpoints(cfg, ticks[..|ticks| - 1])
  {
    var n := |ticks| - 1;
    forall i: nat | i < n ensures SamplesAt(cfg, ticks[..n], i) == SamplesAt(cfg, ticks, i) {
      SamePrefix(cfg, ticks, n, i);
    }
  }

  /** A run writes what its checkpoints write, in that order. */
  lemma {:induction false} RunIsItsCheckpoints(cfg: Config, ticks: seq<Tick>)
    requires cfg.bucketMs > 0
    ensures RunSamples(cfg, ticks) == Flat(Checkpoints(cfg, ticks))
  {
    if ticks != [] {
      RunIsItsCheckpoints(cfg, ticks[..|ticks| - 1]);
      SameCheckpoints(cfg, ticks);
    }
  }

  lemma WrittenIff(cfg: Config, ticks: seq<Tick>, s: ChannelSample)
    requires cfg.bucketMs > 0
    ensures s in RunSamples(cfg, ticks) <==> exists i :: 0 <= i < |ticks| && s in SamplesAt(cfg, ticks, i)
  {
    RunIsItsCheckpoints(cfg, ticks);
    InFlatIff(Checkpoints(cfg, ticks), s);
    assert forall i :: 0 <= i < |ticks| ==> Checkpoints(cfg, ticks)[i] == SamplesAt(cfg, ticks, i);
  }

  function Clocks(ticks: seq<Tick>): seq<int> {
    seq(|ticks|, i requires 0 <= i < |ticks| => ticks[i].now)
  }

  /** For every configuration, run, checkpoint and sample: the checkpoint writes the sample
      if and only if it passes the filter, tells field by field of a row of this
      checkpoint, starts at the bucket of this checkpoint, and prints the time measured
      since the one before. */
  lemma SamplesAreExactly(cfg: Config, ticks: seq<Tick>, i: nat, s: ChannelSample)
    requires cfg.bucketMs > 0 && i < |ticks|
    ensures var rows := Rows(BaselineAfter(Dumps(ticks[..i])), ticks[i].dump);
            s in SamplesAt(cfg, ticks, i) <==>
            && Passes(cfg.filter, s) && (exists j :: 0 <= j < |rows| && Tells(cfg, rows, ticks[i].proc, j, s))
            && StartsBucketOf(s.bucketStart, ticks[i].now, cfg.bucketMs)
            && Measures(s.bucketMs, i, Clocks(ticks), cfg.bucketMs)
  {
    var t, before := ticks[i], ticks[..i];
    var rows := Rows(BaselineAfter(Dumps(before)), t.dump);
    LabelledIff(
      cfg, BucketStart(t.now, cfg.bucketMs), Interval(LastClock(before), t.now, cfg.bucketMs), rows, t.proc, s);
    SomeTellIff(cfg, rows, t.proc, s);
    TimesIff(cfg, ticks, i, s);
  }

  lemma TimesIff(cfg: Config, ticks: seq<Tick>, i: nat, s: ChannelSample)
    requires cfg.bucketMs > 0 && i < |ticks|
    ensures && s.bucketStart == BucketStart(ticks[i].now, cfg.bucketMs)
            && s.bucketMs == Interval(LastClock(ticks[..i]), ticks[i].now, cfg.bucketMs) <==>
            && StartsBucketOf(s.bucketStart, ticks[i].now, cfg.bucketMs)
            && Measures(s.bucketMs, i, Clocks(ticks), cfg.bucketMs)
  {
    BucketStartIsTheOnlyOne(ticks[i].now, cfg.bucketMs, s.bucketStart);
    IntervalIff(Clocks(ticks), i, cfg.bucketMs, s.bucketMs);
  }

  /** The intervals that the samples print. */
  function Printed(samples: seq<ChannelSample>): seq<int> {
    seq(|samples|, i requires 0 <= i < |samples| => samples[i].bucketMs)
  }

  /** One sample of each checkpoint but the first, whichever: the intervals they print add
      up to the time that passed, short by less than a millisecond each. */
  lemma PrintedIntervalsCoverTheRun(cfg: Config, ticks: seq<Tick>, picks: seq<ChannelSample>)
    requires cfg.bucketMs > 0 && |ticks| == |picks| + 1
    requires forall i :: 0 <= i < |picks| ==> picks[i] in SamplesAt(cfg, ticks, i + 1)
    requires forall i :: 0 < i < |ticks| ==> ticks[i].now - ticks[i - 1].now >= 1_000_000
    ensures var passed := ticks[|picks|].now - ticks[0].now;
            0 <= passed - 1_000_000 * SumMs(Printed(picks)) <= |picks| * 999_999
  {
    var clocks, ms := Clocks(ticks), Printed(picks);
    forall i | 0 <= i < |ms| ensures Measures(ms[i], i + 1, clocks, cfg.bucketMs) {
      SamplesAreExactly(cfg, ticks, i + 1, picks[i]);
    }
    MeasuresCover(clocks, ms, cfg.bucketMs);
  }
}
