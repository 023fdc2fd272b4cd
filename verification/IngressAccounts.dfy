/** What the written samples add up to, read by their labels alone. */
module IngressAccounts {
  import opened Wrappers
  import opened Checkpoint
  import opened CheckpointRuns
  import opened Bytes
  import opened Addresses
  import opened Frames
  import opened IngressSamples

  /** What a consumer can group the samples of a layer by. */
  datatype Labels =
    | OnInterface(srcIp: string, dstIp: string, srcPort: nat, dstPort: nat, ipProto: nat, ifindex: nat)
    | ToSocket(srcIp: string, dstIp: string, srcPort: nat, dstPort: nat, ipProto: nat, socketId: nat)

  function LabelsOf(s: UdpSample): Labels {
    match s.layer
    case Ingress => OnInterface(s.srcIp, s.dstIp, s.srcPort, s.dstPort, s.ipProto, s.ifindex)
    case Delivered => ToSocket(s.srcIp, s.dstIp, s.srcPort, s.dstPort, s.ipProto, s.socketId)
  }

  function LabelsOfKey(k: UdpKey): Labels {
    OnInterface(FromBpfInt(k.srcIp4), FromBpfInt(k.dstIp4), k.srcPort, k.dstPort, k.ipProto, k.ifindex)
  }

  function LabelsOfSocket(k: DeliveredKey): Labels {
    ToSocket(FromBpfInt(k.srcIp4), FromBpfInt(k.dstIp4), k.srcPort, k.dstPort, k.ipProto, k.socketCookie)
  }

  predicate Addressed(k: UdpKey) {
    k.srcIp4 < 0x1_0000_0000 && k.dstIp4 < 0x1_0000_0000
  }

  /** The printed labels tell two flows apart, unless they differ in the address family
      alone, which no sample carries. */
  lemma LabelsDetermineFlow(a: UdpKey, b: UdpKey)
    requires Addressed(a) && Addressed(b)
    ensures LabelsOfKey(a) == LabelsOfKey(b) <==> a == b.(family := a.family)
  {
    BpfIntPrintsInjectively(a.srcIp4, b.srcIp4);
    BpfIntPrintsInjectively(a.dstIp4, b.dstIp4);
  }

  /** The addresses that a printed sample shows are the four bytes of the frame's IPv4 header
      in their order, as every other tool prints them. */
  lemma FrameAddressesPrint(skb: Skb)
    requires Classify(skb).Account?
    ensures |skb.frame| >= 34
    ensures var k := Classify(skb).key;
            && FromBpfInt(k.srcIp4) == Dotted(skb.frame[26..30]) && FromBpfInt(k.dstIp4) == Dotted(skb.frame[30..34])
  {
    var b := Linear(skb);
    assert b[26..30] == skb.frame[26..30] && b[30..34] == skb.frame[30..34];
    LoadPrints(b, 26);
    LoadPrints(b, 30);
  }

  lemma LoadPrints(b: seq<byte>, at: nat)
    requires at + 4 <= |b|
    ensures FromBpfInt(Le32(b, at)) == Dotted(b[at..at + 4])
  {
    var four := b[at..at + 4];
    var v := Le32(b, at);
    assert four == [b[at], b[at + 1], b[at + 2], b[at + 3]];
    FourDigits(b[at] as nat, b[at + 1] as nat, b[at + 2] as nat, b[at + 3] as nat);
    assert Le(4, v) == [(v % 256) as byte] + Le(3, v / 256);
    assert Le(3, v / 256) == [(v / 256 % 256) as byte] + Le(2, v / 256 / 256);
    assert Le(2, v / 256 / 256) == [(v / 256 / 256 % 256) as byte] + Le(1, v / 256 / 256 / 256);
    assert Le(1, v / 256 / 256 / 256) == [(v / 256 / 256 / 256 % 256) as byte];
    assert Le(4, v) == four;
  }

  lemma FourDigits(a: nat, b: nat, c: nat, d: nat)
    requires a < 256 && b < 256 && c < 256 && d < 256
    ensures var v := a + 256 * b + 65536 * c + 16777216 * d;
            v % 256 == a && v / 256 % 256 == b && v / 256 / 256 % 256 == c && v / 256 / 256 / 256 == d
  {
    var v := a + 256 * b + 65536 * c + 16777216 * d;
    assert v / 256 == b + 256 * c + 65536 * d;
    assert v / 256 / 256 == c + 256 * d;
  }

  function Amount(s: UdpSample, c: nat): int {
    if c == 0 then s.packets else if c == 1 then s.bytes else 0
  }

  /** The total of packets (0) or bytes (1) over the samples with these labels. */
  function Total(samples: seq<UdpSample>, l: Labels, c: nat): int {
    if samples == [] then 0
    else
      var n := |samples| - 1;
      Total(samples[..n], l, c) + if LabelsOf(samples[n]) == l then Amount(samples[n], c) else 0
  }

  lemma {:induction false} TotalConcat(a: seq<UdpSample>, b: seq<UdpSample>, l: Labels, c: nat)
    ensures Total(a + b, l, c) == Total(a, l, c) + Total(b, l, c)
  {
    if b == [] {
      assert a + b == a;
    } else {
      var n := |b| - 1;
      assert (a + b)[..|a + b| - 1] == a + b[..n];
      TotalConcat(a, b[..n], l, c);
    }
  }

  predicate Alike(k: UdpKey, other: UdpKey) {
    Addressed(other) && other.family == k.family
  }

  predicate AllAlike(rows: seq<IngressRow>, k: UdpKey) {
    forall i :: 0 <= i < |rows| ==> Alike(k, rows[i].key)
  }

  predicate DumpAlike(dump: IngressDump, k: UdpKey) {
    forall i :: 0 <= i < |dump| ==> Alike(k, dump[i].key)
  }

  predicate DumpsAlike(ticks: seq<Tick>, k: UdpKey) {
    forall i :: 0 <= i < |ticks| ==> DumpAlike(ticks[i].ingress, k)
  }

  lemma OneSample(s: UdpSample, l: Labels, c: nat)
    ensures Total([s], l, c) == if LabelsOf(s) == l then Amount(s, c) else 0
  {
    assert [s][..0] == [];
  }

  function SampleTotal(cfg: Config, at: Span, r: IngressRow, sockets: seq<ProcessSocket>, l: Labels, c: nat): int {
    Total(Kept(cfg.filter, IngressLabels(cfg, at, r, sockets)), l, c)
  }

  lemma LabelledOne(cfg: Config, at: Span, r: IngressRow, sockets: seq<ProcessSocket>, k: UdpKey, c: nat)
    requires cfg.filter == PASS_ALL && cfg.mode == Nothing && c < 2 && Addressed(k) && Alike(k, r.key)
    ensures SampleTotal(cfg, at, r, sockets, LabelsOfKey(k), c) == if r.key == k then At(r.delta, c) else 0
  {
    LabelsDetermineFlow(r.key, k);
    KeptByPassAll(cfg.filter, IngressLabels(cfg, at, r, sockets));
    OneSample(Bare(cfg, at, r), LabelsOfKey(k), c);
  }

  lemma OneMoreLabelled(cfg: Config, at: Span, rows: seq<IngressRow>, view: Inventory, l: Labels, c: nat)
    requires rows != []
    ensures var n := |rows| - 1;
            (Total(IngressLabelled(cfg, at, rows, view), l, c)
              == Total(IngressLabelled(cfg, at, rows[..n], view), l, c) + SampleTotal(cfg, at, rows[n], view(n), l, c))
  {
    var n := |rows| - 1;
    TotalConcat(IngressLabelled(cfg, at, rows[..n], view), Kept(cfg.filter, IngressLabels(cfg, at, rows[n], view(n))),
      l, c);
  }

  lemma {:induction false} LabelledTotal(
    cfg: Config, at: Span, rows: seq<IngressRow>, view: Inventory, k: UdpKey, c: nat)
    requires cfg.filter == PASS_ALL && cfg.mode == Nothing && c < 2
    requires Addressed(k) && AllAlike(rows, k)
    ensures Total(IngressLabelled(cfg, at, rows, view), LabelsOfKey(k), c) == Emitted(rows, k, c)
  {
    if rows != [] {
      var n := |rows| - 1;
      assert Alike(k, rows[n].key);
      LabelledTotal(cfg, at, rows[..n], view, k, c);
      LabelledOne(cfg, at, rows[n], view(n), k, c);
      OneMoreLabelled(cfg, at, rows, view, LabelsOfKey(k), c);
    }
  }

  lemma RowsAreAlike(prev: map<UdpKey, Counters>, dump: IngressDump, k: UdpKey)
    requires DumpAlike(dump, k)
    ensures AllAlike(Rows(prev, dump), k)
  {
    RowsAreExact(prev, dump);
    var rows := Rows(prev, dump);
    forall i | 0 <= i < |rows| ensures Alike(k, rows[i].key) {
      assert rows[i] in rows;
      assert ExactRow(prev, dump, rows[i]);
      var j :| 0 <= j < |dump| && dump[j].key == rows[i].key;
      assert Alike(k, dump[j].key);
    }
  }

  /** Adding up a run's unfiltered ingress samples by their printed labels gives back,
      for each flow, exactly what the run emitted for its identity, hence the sum of its
      counter's positive changes between consecutive dumps. */
  lemma {:induction false} LabelsAccountForTheRun(cfg: Config, ticks: seq<Tick>, k: UdpKey, c: nat)
    requires cfg.bucketMs > 0 && cfg.filter == PASS_ALL && c < 2 && (cfg.reader ==> cfg.mode == Cookie)
    requires Addressed(k) && DumpsAlike(ticks, k)
    ensures Total(OfLayer(RunSamples(cfg, ticks), Ingress), LabelsOfKey(k), c) ==
            Emitted(RunRows(IngressDumps(ticks)), k, c)
    ensures Total(OfLayer(RunSamples(cfg, ticks), Ingress), LabelsOfKey(k), c) == SumOfGains(IngressDumps(ticks), k, c)
  {
    IngressRowsIgnoreAttribution(cfg, ticks);
    BareRunTotal(Unattributed(cfg), ticks, k, c);
    Telescoping(IngressDumps(ticks), k, c);
  }

  lemma BareCheckpointTotal(
    cfg: Config, last: Option<int>, prev: map<UdpKey, Counters>, deliveredPrev: map<DeliveredKey, Counters>, t: Tick,
    k: UdpKey, c: nat)
    requires cfg.bucketMs > 0 && cfg.filter == PASS_ALL && c < 2 && cfg.mode == Nothing && !cfg.reader
    requires Addressed(k) && DumpAlike(t.ingress, k)
    ensures Total(CheckpointSamples(cfg, last, prev, deliveredPrev, t), LabelsOfKey(k), c)
         == Emitted(Rows(prev, t.ingress), k, c)
  {
    var rows := Rows(prev, t.ingress);
    RowsAreAlike(prev, t.ingress, k);
    LabelledTotal(cfg, SpanOf(cfg, last, t), rows, t.ingressView, k, c);
    var samples := IngressLabelled(cfg, SpanOf(cfg, last, t), rows, t.ingressView);
    assert samples + [] == samples;
  }

  lemma {:induction false} BareRunTotal(cfg: Config, ticks: seq<Tick>, k: UdpKey, c: nat)
    requires cfg.bucketMs > 0 && cfg.filter == PASS_ALL && c < 2 && cfg.mode == Nothing && !cfg.reader
    requires Addressed(k) && DumpsAlike(ticks, k)
    ensures Total(RunSamples(cfg, ticks), LabelsOfKey(k), c) == Emitted(RunRows(IngressDumps(ticks)), k, c)
  {
    if ticks != [] {
      var n := |ticks| - 1;
      var before, t := ticks[..n], ticks[n];
      BareRunTotal(cfg, before, k, c);
      OneMoreDump(ticks, k, c);
      var prev, deliveredPrev := BaselineAfter(IngressDumps(before)), BaselineAfter(DeliveredDumps(before));
      BareCheckpointTotal(cfg, LastClock(before), prev, deliveredPrev, t, k, c);
      TotalConcat(RunSamples(cfg, before), CheckpointSamples(cfg, LastClock(before), prev, deliveredPrev, t),
                  LabelsOfKey(k), c);
    }
  }

  lemma OneMoreDump(ticks: seq<Tick>, k: UdpKey, c: nat)
    requires ticks != []
    ensures var n := |ticks| - 1;
            (Emitted(RunRows(IngressDumps(ticks)), k, c)
              == Emitted(RunRows(IngressDumps(ticks[..n])), k, c)
                + Emitted(Rows(BaselineAfter(IngressDumps(ticks[..n])), ticks[n].ingress), k, c))
  {
    var n := |ticks| - 1;
    var dumps := IngressDumps(ticks);
    assert dumps[..n] == IngressDumps(ticks[..n]);
    EmittedConcat(RunRows(dumps[..n]), Rows(BaselineAfter(dumps[..n]), dumps[n]), k, c);
  }

  lemma {:induction false} KeptByPassAll(f: SampleFilter, samples: seq<UdpSample>)
    requires f == PASS_ALL
    ensures Kept(f, samples) == samples
  {
    if samples != [] {
      KeptByPassAll(f, samples[..|samples| - 1]);
    }
  }
}
