/** What the written channel samples add up to, read by their labels alone. */
module ChannelAccounts {
  import opened Wrappers
  import opened Checkpoint
  import opened CheckpointRuns
  import opened Addresses
  import opened ChannelHooks
  import opened Protocols
  import opened ChannelCollectors
  import CheckpointClock

  datatype Labels = Labels(
    socketId: nat, cgroupId: nat, srcIp: string, dstIp: string, srcPort: nat, dstPort: nat, proto: nat)

  function LabelsOf(s: ChannelSample): Labels {
    Labels(s.socketId, s.cgroupId, s.srcIp, s.dstIp, s.srcPort, s.dstPort, s.proto)
  }

  function LabelsOfKey(proto: nat, k: FlowKey): Labels {
    Labels(k.socketCookie, k.cgroupId, FromBpfInt(k.srcIp4), FromBpfInt(Endpoint(proto, k).0), k.srcPort,
           Endpoint(proto, k).1, proto)
  }

  const PASS_ALL := ChannelSampleFilter(None, None, None, None)

  function Total(samples: seq<ChannelSample>, l: Labels, c: nat): int {
    if samples == [] then 0
    else
      var n := |samples| - 1;
      Total(samples[..n], l, c) + if LabelsOf(samples[n]) == l then At(samples[n].delta, c) else 0
  }

  lemma {:induction false} TotalConcat(a: seq<ChannelSample>, b: seq<ChannelSample>, l: Labels, c: nat)
    ensures Total(a + b, l, c) == Total(a, l, c) + Total(b, l, c)
  {
    if b == [] {
      assert a + b == a;
    } else {
      var n := |b| - 1;
      assert (a + b)[..|a + b| - 1] == a + b[..n];
      TotalConcat(a, b[..n], l, c);
    }
  }

  /** A flow of the protocol that prints like `k` is `k`. For TCP every valid flow is
      apart from every other; for UDP see `PrintAlikeIff`. */
  predicate Apart(proto: nat, k: FlowKey, other: FlowKey) {
    PrintAlike(proto, k, other) ==> other == k
  }

  predicate DumpApart(proto: nat, dump: FlowDump, k: FlowKey) {
    forall i :: 0 <= i < |dump| ==> Apart(proto, k, dump[i].key)
  }

  predicate DumpsApart(proto: nat, ticks: seq<Tick>, k: FlowKey) {
    forall i :: 0 <= i < |ticks| ==> DumpApart(proto, ticks[i].dump, k)
  }

  predicate RowsApart(proto: nat, rows: seq<FlowRow>, k: FlowKey) {
    forall i :: 0 <= i < |rows| ==> Apart(proto, k, rows[i].key)
  }

  lemma LabelsOfSample(cfg: Config, start: int, ms: int, r: FlowRow, unit: string, k: FlowKey, c: nat)
    requires Apart(cfg.proto, k, r.key)
    ensures LabelsOf(SampleOf(cfg, start, ms, r, unit)) == LabelsOfKey(cfg.proto, r.key)
    ensures LabelsOf(SampleOf(cfg, start, ms, r, unit)) == LabelsOfKey(cfg.proto, k) <==> r.key == k
    ensures At(SampleOf(cfg, start, ms, r, unit).delta, c) == At(r.delta, c)
  {
    assert LabelsOfKey(cfg.proto, r.key) == LabelsOfKey(cfg.proto, k) ==> PrintAlike(cfg.proto, k, r.key);
  }

  lemma {:induction false} LabelledTotal(
    cfg: Config, start: int, ms: int, rows: seq<FlowRow>, proc: ProcView, k: FlowKey, c: nat)
    requires cfg.filter == PASS_ALL && RowsApart(cfg.proto, rows, k)
    ensures Total(Labelled(cfg, start, ms, rows, proc), LabelsOfKey(cfg.proto, k), c) == Emitted(rows, k, c)
  {
    if rows != [] {
      var n := |rows| - 1;
      assert Apart(cfg.proto, k, rows[n].key);
      LabelledTotal(cfg, start, ms, rows[..n], proc, k, c);
      var unit := UnitIn(Cached(rows, proc), rows[n].first.value.pid);
      LabelsOfSample(cfg, start, ms, rows[n], unit, k, c);
      OneMoreSample(Labelled(cfg, start, ms, rows[..n], proc), SampleOf(cfg, start, ms, rows[n], unit),
                    LabelsOfKey(cfg.proto, k), c);
    }
  }

  lemma OneMoreSample(samples: seq<ChannelSample>, s: ChannelSample, l: Labels, c: nat)
    ensures Total(samples + [s], l, c) == Total(samples, l, c) + if LabelsOf(s) == l then At(s.delta, c) else 0
  {
    var more := samples + [s];
    assert more[..|more| - 1] == samples;
  }

  lemma RowsOfDumpApart(proto: nat, prev: map<FlowKey, Counters>, dump: FlowDump, k: FlowKey)
    requires DumpApart(proto, dump, k)
    ensures RowsApart(proto, Rows(prev, dump), k)
  {
    RowsAreExact(prev, dump);
    var rows := Rows(prev, dump);
    forall i | 0 <= i < |rows| ensures Apart(proto, k, rows[i].key) {
      assert rows[i] in rows;
      assert ExactRow(prev, dump, rows[i]);
      var j :| 0 <= j < |dump| && dump[j].key == rows[i].key;
      assert Apart(proto, k, dump[j].key);
    }
  }

  lemma CheckpointTotal(cfg: Config, last: Option<int>, prev: map<FlowKey, Counters>, t: Tick, k: FlowKey, c: nat)
    requires cfg.bucketMs > 0 && cfg.filter == PASS_ALL && DumpApart(cfg.proto, t.dump, k)
    ensures Total(CheckpointSamples(cfg, last, prev, t.now, t.dump, t.proc), LabelsOfKey(cfg.proto, k), c)
         == Emitted(Rows(prev, t.dump), k, c)
  {
    RowsOfDumpApart(cfg.proto, prev, t.dump, k);
    var start := CheckpointClock.BucketStart(t.now, cfg.bucketMs);
    var ms := CheckpointClock.Interval(last, t.now, cfg.bucketMs);
    LabelledTotal(cfg, start, ms, Rows(prev, t.dump), t.proc, k, c);
  }

  lemma OneMoreDump(ticks: seq<Tick>, k: FlowKey, c: nat)
    requires ticks != []
    ensures var n := |ticks| - 1;
            (Emitted(RunRows(Dumps(ticks)), k, c)
              == Emitted(RunRows(Dumps(ticks[..n])), k, c)
                + Emitted(Rows(BaselineAfter(Dumps(ticks[..n])), ticks[n].dump), k, c))
  {
    var n := |ticks| - 1;
    var dumps := Dumps(ticks);
    assert dumps[..n] == Dumps(ticks[..n]);
    EmittedConcat(RunRows(dumps[..n]), Rows(BaselineAfter(dumps[..n]), dumps[n]), k, c);
  }

  /** Adding up a run's unfiltered samples by their printed labels gives, for a flow no
      other prints like, the sum of its counter's positive changes between consecutive
      dumps, whatever the units and channels the samples were attributed to. */
  lemma {:induction false} LabelsAccountForTheRun(cfg: Config, ticks: seq<Tick>, k: FlowKey, c: nat)
    requires cfg.bucketMs > 0 && cfg.filter == PASS_ALL && DumpsApart(cfg.proto, ticks, k)
    ensures Total(RunSamples(cfg, ticks), LabelsOfKey(cfg.proto, k), c) == Emitted(RunRows(Dumps(ticks)), k, c)
    ensures Total(RunSamples(cfg, ticks), LabelsOfKey(cfg.proto, k), c) == SumOfGains(Dumps(ticks), k, c)
  {
    if ticks != [] {
      var n := |ticks| - 1;
      var before, t := ticks[..n], ticks[n];
      LabelsAccountForTheRun(cfg, before, k, c);
      OneMoreDump(ticks, k, c);
      assert DumpApart(cfg.proto, t.dump, k);
      CheckpointTotal(cfg, LastClock(before), BaselineAfter(Dumps(before)), t, k, c);
      TotalConcat(RunSamples(cfg, before),
                  CheckpointSamples(cfg, LastClock(before), BaselineAfter(Dumps(before)), t.now, t.dump, t.proc),
                  LabelsOfKey(cfg.proto, k), c);
    }
    Telescoping(Dumps(ticks), k, c);
  }

  /** For TCP that is every flow the hooks can write. */
  lemma TcpFlowsAreApart(dump: FlowDump, k: FlowKey)
    requires ValidKey(IPPROTO_TCP, k) && Addressed(k)
    requires forall i :: 0 <= i < |dump| ==> ValidKey(IPPROTO_TCP, dump[i].key) && Addressed(dump[i].key)
    ensures DumpApart(IPPROTO_TCP, dump, k)
  {
    forall i | 0 <= i < |dump| ensures Apart(IPPROTO_TCP, k, dump[i].key) {
      PrintAlikeIff(IPPROTO_TCP, k, dump[i].key);
    }
  }
}
