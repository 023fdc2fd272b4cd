/** What is written: exactly which samples a checkpoint of the ingress collector writes,
    field by field, and the intervals they print. */
module IngressReports {
  import opened Wrappers
  import opened Checkpoint
  import opened CheckpointRuns
  import opened CheckpointClock
  import opened PrintedTime
  import opened Addresses
  import opened IngressSamples

  // ------------------------------------------------------------------ what a sample says

  /** The filter's fields each ask for one field of the sample, if they ask at all. */
  predicate Passes(f: SampleFilter, s: UdpSample) {
    && (f.srcIp.Some? ==> f.srcIp == Some(s.srcIp)) && (f.dstIp.Some? ==> f.dstIp == Some(s.dstIp))
    && (f.srcPort.Some? ==> f.srcPort == Some(s.srcPort)) && (f.dstPort.Some? ==> f.dstPort == Some(s.dstPort))
    && (f.ifname.Some? ==> f.ifname == Some(s.ifname)) && (f.layer.Some? ==> f.layer == Some(s.layer))
    && (f.processName.Some? ==> f.processName == Some(s.processName))
  }

  /** It is a sample of the checkpoint, and tells of a row with these addresses and ports and
      this growth. */
  predicate Tells(s: UdpSample, at: Span, src: nat, dst: nat, srcPort: nat, dstPort: nat, proto: nat, delta: Counters) {
    && s.bucketStart == at.bucketStart && s.bucketMs == at.bucketMs
    && s.srcIp == FromBpfInt(src) && s.srcPort == srcPort && s.dstIp == FromBpfInt(dst) && s.dstPort == dstPort
    && s.ipProto == proto && s.packets == At(delta, 0) && s.bytes == At(delta, 1)
  }

  predicate NamesInterface(cfg: Config, s: UdpSample, ifindex: nat) {
    && s.ifindex == ifindex
    && (ifindex in cfg.names ==> s.ifname == cfg.names[ifindex])
    && (ifindex !in cfg.names ==> s.ifname == cfg.ifname)
  }

  predicate NamesNoProcess(s: UdpSample) {
    s.hostPid == 0 && s.containerPid == 0 && s.processName == "" && s.netnsId == 0 && s.containerId == ""
  }

  predicate NamesProcess(s: UdpSample, m: ProcessSocket) {
    && s.hostPid == m.hostPid && s.containerPid == m.containerPid && s.processName == m.processName
    && s.netnsId == m.netnsId && s.containerId == m.containerId
  }

  /** A row of the ingress map as it stands. */
  predicate TellsIngress(cfg: Config, at: Span, r: IngressRow, s: UdpSample) {
    && Tells(s, at, r.key.srcIp4, r.key.dstIp4, r.key.srcPort, r.key.dstPort, r.key.ipProto, r.delta)
    && NamesInterface(cfg, s, r.key.ifindex) && s.layer.Ingress? && s.socketId == 0 && NamesNoProcess(s)
  }

  /** The same row for a process with a socket of the destination port, bound to the
      destination address or to all. */
  predicate TellsByPort(cfg: Config, at: Span, r: IngressRow, m: ProcessSocket, s: UdpSample) {
    && Tells(s, at, r.key.srcIp4, r.key.dstIp4, r.key.srcPort, r.key.dstPort, r.key.ipProto, r.delta)
    && NamesInterface(cfg, s, r.key.ifindex) && s.layer.Delivered? && s.socketId == m.socketInode && NamesProcess(s, m)
    && m.localPort == s.dstPort && (m.localIp == s.dstIp || m.localIp == "0.0.0.0")
  }

  /** A row of the delivered map: for each process that holds its socket, or for none. */
  predicate TellsDelivered(cfg: Config, at: Span, r: DeliveredRow, sockets: seq<ProcessSocket>, s: UdpSample) {
    && Tells(s, at, r.key.srcIp4, r.key.dstIp4, r.key.srcPort, r.key.dstPort, r.key.ipProto, r.delta)
    && NamesInterface(cfg, s, r.first.value.ifindex) && s.layer.Delivered? && s.socketId == r.key.socketCookie
    && ((exists m :: m in sockets && Holds(m, r) && NamesProcess(s, m))
        || (NamesNoProcess(s) && (cfg.enricher ==> forall m :: m in sockets ==> !Holds(m, r))))
  }

  predicate Holds(m: ProcessSocket, r: DeliveredRow) {
    m.socketInode == r.first.value.socketInode != 0
  }

  // ----------------------------------------------------------------- and nothing else

  lemma PassesIff(f: SampleFilter, samples: seq<UdpSample>, s: UdpSample)
    ensures s in Kept(f, samples) <==> s in samples && Passes(f, s)
  {
    KeptIff(f, samples, s);
  }

  lemma BareIff(cfg: Config, at: Span, r: IngressRow, s: UdpSample)
    ensures s == Bare(cfg, at, r) <==> TellsIngress(cfg, at, r, s)
  {
  }

  lemma LegacyCopyIff(cfg: Config, at: Span, r: IngressRow, m: ProcessSocket, s: UdpSample)
    ensures s == LegacyCopy(Bare(cfg, at, r), m) && LegacyMatch(m.localIp, m.localPort, s.dstIp, s.dstPort) <==>
            TellsByPort(cfg, at, r, m, s)
  {
  }

  lemma LegacyCopiesIff(cfg: Config, at: Span, r: IngressRow, sockets: seq<ProcessSocket>, s: UdpSample)
    ensures s in LegacyCopies(Bare(cfg, at, r), FindMatches(sockets, Bare(cfg, at, r))) <==>
            exists m :: m in sockets && TellsByPort(cfg, at, r, m, s)
  {
    var bare := Bare(cfg, at, r);
    var matches := FindMatches(sockets, bare);
    var copies := LegacyCopies(bare, matches);
    if s in copies {
      var i :| 0 <= i < |copies| && copies[i] == s;
      FindMatchesIff(sockets, bare, matches[i]);
      LegacyCopyIff(cfg, at, r, matches[i], s);
    }
    if m :| m in sockets && TellsByPort(cfg, at, r, m, s) {
      LegacyCopyIff(cfg, at, r, m, s);
      FindMatchesIff(sockets, bare, m);
      var i :| 0 <= i < |matches| && matches[i] == m;
      assert copies[i] == s;
    }
  }

  /** What is written of one ingress row. */
  predicate TellsOf(cfg: Config, at: Span, r: IngressRow, sockets: seq<ProcessSocket>, s: UdpSample) {
    || TellsIngress(cfg, at, r, s)
    || (cfg.mode == Legacy && cfg.enricher && exists m :: m in sockets && TellsByPort(cfg, at, r, m, s))
  }

  lemma IngressLabelsIff(cfg: Config, at: Span, r: IngressRow, sockets: seq<ProcessSocket>, s: UdpSample)
    ensures s in IngressLabels(cfg, at, r, sockets) <==> TellsOf(cfg, at, r, sockets, s)
  {
    BareIff(cfg, at, r, s);
    LegacyCopiesIff(cfg, at, r, sockets, s);
  }

  predicate RowTells(cfg: Config, at: Span, rows: seq<IngressRow>, view: Inventory, j: int, s: UdpSample) {
    0 <= j < |rows| && TellsOf(cfg, at, rows[j], view(j), s)
  }

  predicate SomeTell(cfg: Config, at: Span, rows: seq<IngressRow>, view: Inventory, s: UdpSample) {
    exists j :: 0 <= j < |rows| && RowTells(cfg, at, rows, view, j, s)
  }

  lemma EarlierTells(cfg: Config, at: Span, rows: seq<IngressRow>, view: Inventory, n: nat, j: nat, s: UdpSample)
    requires j < n <= |rows|
    ensures RowTells(cfg, at, rows[..n], view, j, s) == RowTells(cfg, at, rows, view, j, s)
  {
  }

  lemma OneMoreTells(cfg: Config, at: Span, rows: seq<IngressRow>, view: Inventory, s: UdpSample)
    requires rows != []
    ensures var n := |rows| - 1;
            SomeTell(cfg, at, rows, view, s) <==>
            SomeTell(cfg, at, rows[..n], view, s) || TellsOf(cfg, at, rows[n], view(n), s)
  {
    var n := |rows| - 1;
    forall j: nat | j < n ensures RowTells(cfg, at, rows[..n], view, j, s) == RowTells(cfg, at, rows, view, j, s) {
      EarlierTells(cfg, at, rows, view, n, j, s);
    }
    assert RowTells(cfg, at, rows, view, n, s) == TellsOf(cfg, at, rows[n], view(n), s);
  }

  lemma KeptLabelsIff(cfg: Config, at: Span, r: IngressRow, sockets: seq<ProcessSocket>, s: UdpSample)
    ensures s in Kept(cfg.filter, IngressLabels(cfg, at, r, sockets)) <==>
            Passes(cfg.filter, s) && TellsOf(cfg, at, r, sockets, s)
  {
    IngressLabelsIff(cfg, at, r, sockets, s);
    PassesIff(cfg.filter, IngressLabels(cfg, at, r, sockets), s);
  }

  lemma {:induction false} IngressLabelledIff(
    cfg: Config, at: Span, rows: seq<IngressRow>, view: Inventory, s: UdpSample)
    ensures s in IngressLabelled(cfg, at, rows, view) <==> Passes(cfg.filter, s) && SomeTell(cfg, at, rows, view, s)
  {
    if rows != [] {
      var n := |rows| - 1;
      IngressLabelledIff(cfg, at, rows[..n], view, s);
      KeptLabelsIff(cfg, at, rows[n], view(n), s);
      OneMoreTells(cfg, at, rows, view, s);
    }
  }

  lemma OwnedIff(cfg: Config, at: Span, r: DeliveredRow, m: ProcessSocket, s: UdpSample)
    ensures s == OwnedBy(FromSocket(cfg, at, r), m) <==>
            && Tells(s, at, r.key.srcIp4, r.key.dstIp4, r.key.srcPort, r.key.dstPort, r.key.ipProto, r.delta)
            && NamesInterface(cfg, s, r.first.value.ifindex) && s.layer.Delivered? && s.socketId == r.key.socketCookie
            && NamesProcess(s, m)
  {
  }

  lemma UnownedIff(cfg: Config, at: Span, r: DeliveredRow, s: UdpSample)
    ensures s == FromSocket(cfg, at, r) <==>
            && Tells(s, at, r.key.srcIp4, r.key.dstIp4, r.key.srcPort, r.key.dstPort, r.key.ipProto, r.delta)
            && NamesInterface(cfg, s, r.first.value.ifindex) && s.layer.Delivered? && s.socketId == r.key.socketCookie
            && NamesNoProcess(s)
  {
  }

  lemma HeldIff(r: DeliveredRow, sockets: seq<ProcessSocket>, m: ProcessSocket)
    ensures m in Holders(sockets, r.first.value.socketInode) <==> m in sockets && Holds(m, r)
  {
    HoldersIff(sockets, r.first.value.socketInode, m);
  }

  lemma DeliveredLabelsIff(cfg: Config, at: Span, r: DeliveredRow, sockets: seq<ProcessSocket>, s: UdpSample)
    requires cfg.enricher
    ensures s in DeliveredLabels(cfg, at, r, sockets) <==> TellsDelivered(cfg, at, r, sockets, s)
  {
    var holders := Holders(sockets, r.first.value.socketInode);
    var labels := DeliveredLabels(cfg, at, r, sockets);
    assert FromSocket(cfg, at, r).(layer := Delivered, socketId := r.key.socketCookie) == FromSocket(cfg, at, r);
    forall m ensures m in holders <==> m in sockets && Holds(m, r) {
      HeldIff(r, sockets, m);
    }
    UnownedIff(cfg, at, r, s);
    if holders == [] {
      assert forall m :: m in sockets ==> !Holds(m, r);
    } else {
      assert holders[0] in sockets && Holds(holders[0], r);
      if s in labels {
        var i :| 0 <= i < |labels| && labels[i] == s;
        OwnedIff(cfg, at, r, holders[i], s);
      }
      if m :| m in sockets && Holds(m, r) && NamesProcess(s, m) && TellsDelivered(cfg, at, r, sockets, s) {
        var i :| 0 <= i < |holders| && holders[i] == m;
        OwnedIff(cfg, at, r, m, s);
        assert labels[i] == s;
      }
    }
  }

  predicate RowDelivered(cfg: Config, at: Span, rows: seq<DeliveredRow>, view: Inventory, j: int, s: UdpSample) {
    0 <= j < |rows| && TellsDelivered(cfg, at, rows[j], view(j), s)
  }

  predicate SomeDelivered(cfg: Config, at: Span, rows: seq<DeliveredRow>, view: Inventory, s: UdpSample) {
    exists j :: 0 <= j < |rows| && RowDelivered(cfg, at, rows, view, j, s)
  }

  lemma EarlierDelivered(cfg: Config, at: Span, rows: seq<DeliveredRow>, view: Inventory, n: nat, j: nat, s: UdpSample)
    requires j < n <= |rows|
    ensures RowDelivered(cfg, at, rows[..n], view, j, s) == RowDelivered(cfg, at, rows, view, j, s)
  {
  }

  lemma OneMoreDelivered(cfg: Config, at: Span, rows: seq<DeliveredRow>, view: Inventory, s: UdpSample)
    requires rows != []
    ensures var n := |rows| - 1;
            SomeDelivered(cfg, at, rows, view, s) <==>
            SomeDelivered(cfg, at, rows[..n], view, s) || TellsDelivered(cfg, at, rows[n], view(n), s)
  {
    var n := |rows| - 1;
    forall j: nat | j < n
      ensures RowDelivered(cfg, at, rows[..n], view, j, s) == RowDelivered(cfg, at, rows, view, j, s)
    {
      EarlierDelivered(cfg, at, rows, view, n, j, s);
    }
    assert RowDelivered(cfg, at, rows, view, n, s) == TellsDelivered(cfg, at, rows[n], view(n), s);
  }

  lemma KeptDeliveredIff(cfg: Config, at: Span, r: DeliveredRow, sockets: seq<ProcessSocket>, s: UdpSample)
    requires cfg.enricher
    ensures s in Kept(cfg.filter, DeliveredLabels(cfg, at, r, sockets)) <==>
            Passes(cfg.filter, s) && TellsDelivered(cfg, at, r, sockets, s)
  {
    DeliveredLabelsIff(cfg, at, r, sockets, s);
    PassesIff(cfg.filter, DeliveredLabels(cfg, at, r, sockets), s);
  }

  lemma {:induction false} DeliveredLabelledIff(
    cfg: Config, at: Span, rows: seq<DeliveredRow>, view: Inventory, s: UdpSample)
    requires cfg.enricher
    ensures s in DeliveredLabelled(cfg, at, rows, view) <==>
            Passes(cfg.filter, s) && SomeDelivered(cfg, at, rows, view, s)
  {
    if rows != [] {
      var n := |rows| - 1;
      DeliveredLabelledIff(cfg, at, rows[..n], view, s);
      KeptDeliveredIff(cfg, at, rows[n], view(n), s);
      OneMoreDelivered(cfg, at, rows, view, s);
    }
  }

  // --------------------------------------------------------------------- whole runs

  /** The samples that checkpoint `i` of a run writes. */
  function SamplesAt(cfg: Config, ticks: seq<Tick>, i: nat): seq<UdpSample>
    requires cfg.bucketMs > 0 && i < |ticks|
  {
    var before := ticks[..i];
    CheckpointSamples(
      cfg, LastClock(before), BaselineAfter(IngressDumps(before)), BaselineAfter(DeliveredDumps(before)), ticks[i])
  }

  /** What the checkpoints of a run write. */
  function Checkpoints(cfg: Config, ticks: seq<Tick>): seq<seq<UdpSample>>
    requires cfg.bucketMs > 0
  {
    seq(|ticks|, i requires 0 <= i < |ticks| => SamplesAt(cfg, ticks, i))
  }

  lemma SamePrefix(cfg: Config, ticks: seq<Tick>, n: nat, i: nat)
    requires cfg.bucketMs > 0 && i < n <= |ticks|
    ensures SamplesAt(cfg, ticks[..n], i) == SamplesAt(cfg, ticks, i)
  {
    assert ticks[..n][..i] == ticks[..i];
  }

  lemma SameCheckpoints(cfg: Config, ticks: seq<Tick>)
    requires cfg.bucketMs > 0 && ticks != []
    ensures Checkpoints(cfg, ticks)[..|ticks| - 1] == Checkpoints(cfg, ticks[..|ticks| - 1])
  {
    var n := |ticks| - 1;
    forall i: nat | i < n ensures SamplesAt(cfg, ticks[..n], i) == SamplesAt(cfg, ticks, i) {
      SamePrefix(cfg, ticks, n, i);
    }
  }

  /** A run writes what its checkpoints write, in that order. */
  lemma {:induction false} RunIsItsCheckpoints(cfg: Config, ticks: seq<Tick>)
    requires cfg.bucketMs > 0
    ensures RunSamples(cfg, ticks) == Flat(Checkpoints(cfg, ticks))
  {
    if ticks != [] {
      RunIsItsCheckpoints(cfg, ticks[..|ticks| - 1]);
      SameCheckpoints(cfg, ticks);
    }
  }

  lemma WrittenIff(cfg: Config, ticks: seq<Tick>, s: UdpSample)
    requires cfg.bucketMs > 0
    ensures s in RunSamples(cfg, ticks) <==> exists i :: 0 <= i < |ticks| && s in SamplesAt(cfg, ticks, i)
  {
    RunIsItsCheckpoints(cfg, ticks);
    InFlatIff(Checkpoints(cfg, ticks), s);
    assert forall i :: 0 <= i < |ticks| ==> Checkpoints(cfg, ticks)[i] == SamplesAt(cfg, ticks, i);
  }

  function Clocks(ticks: seq<Tick>): seq<int> {
    seq(|ticks|, i requires 0 <= i < |ticks| => ticks[i].now)
  }

  lemma SpanIff(cfg: Config, ticks: seq<Tick>, i: nat, at: Span)
    requires cfg.bucketMs > 0 && i < |ticks|
    ensures at == SpanOf(cfg, LastClock(ticks[..i]), ticks[i]) <==>
            && StartsBucketOf(at.bucketStart, ticks[i].now, cfg.bucketMs)
            && Measures(at.bucketMs, i, Clocks(ticks), cfg.bucketMs)
  {
    BucketStartIsTheOnlyOne(ticks[i].now, cfg.bucketMs, at.bucketStart);
    IntervalIff(Clocks(ticks), i, cfg.bucketMs, at.bucketMs);
  }

  /** What checkpoint `i` writes, from the rows of its dumps. */
  predicate ToldAt(cfg: Config, ticks: seq<Tick>, i: nat, s: UdpSample)
    requires i < |ticks|
  {
    var at := Span(s.bucketStart, s.bucketMs);
    var t, before := ticks[i], ticks[..i];
    || SomeTell(cfg, at, Rows(BaselineAfter(IngressDumps(before)), t.ingress), t.ingressView, s)
    || (cfg.reader &&
        SomeDelivered(cfg, at, Rows(BaselineAfter(DeliveredDumps(before)), t.delivered), t.deliveredView, s))
  }

  /** For every configuration a collector can settle on, every run, checkpoint and sample:
      the checkpoint writes the sample if and only if it passes the filter, tells field by
      field of a row of this checkpoint and, where it names a process, of one that holds
      the row's socket (or, in legacy mode, matches its address and port), starts at the
      bucket of this checkpoint, and prints the time measured since the one before. */
  lemma SamplesAreExactly(cfg: Config, ticks: seq<Tick>, i: nat, s: UdpSample)
    requires cfg.bucketMs > 0 && i < |ticks| && (cfg.reader ==> cfg.enricher)
    ensures s in SamplesAt(cfg, ticks, i) <==>
            && Passes(cfg.filter, s) && ToldAt(cfg, ticks, i, s)
            && StartsBucketOf(s.bucketStart, ticks[i].now, cfg.bucketMs)
            && Measures(s.bucketMs, i, Clocks(ticks), cfg.bucketMs)
  {
    var t, before := ticks[i], ticks[..i];
    var at := SpanOf(cfg, LastClock(before), t);
    var rows := Rows(BaselineAfter(IngressDumps(before)), t.ingress);
    var delivered := Rows(BaselineAfter(DeliveredDumps(before)), t.delivered);
    SpanIff(cfg, ticks, i, Span(s.bucketStart, s.bucketMs));
    IngressLabelledIff(cfg, at, rows, t.ingressView, s);
    ToldInSpan(cfg, at, rows, t.ingressView, s);
    if cfg.reader {
      DeliveredLabelledIff(cfg, at, delivered, t.deliveredView, s);
      DeliveredInSpan(cfg, at, delivered, t.deliveredView, s);
    }
  }

  lemma ToldInSpan(cfg: Config, at: Span, rows: seq<IngressRow>, view: Inventory, s: UdpSample)
    ensures SomeTell(cfg, at, rows, view, s) ==> at == Span(s.bucketStart, s.bucketMs)
  {
  }

  lemma DeliveredInSpan(cfg: Config, at: Span, rows: seq<DeliveredRow>, view: Inventory, s: UdpSample)
    ensures SomeDelivered(cfg, at, rows, view, s) ==> at == Span(s.bucketStart, s.bucketMs)
  {
  }

  /** The intervals that the samples print. */
  function Printed(samples: seq<UdpSample>): seq<int> {
    seq(|samples|, i requires 0 <= i < |samples| => samples[i].bucketMs)
  }

  /** One sample of each checkpoint but the first, whichever: the intervals they print add
      up to the time that passed, short by less than a millisecond each. */
  lemma PrintedIntervalsCoverTheRun(cfg: Config, ticks: seq<Tick>, picks: seq<UdpSample>)
    requires cfg.bucketMs > 0 && (cfg.reader ==> cfg.enricher) && |ticks| == |picks| + 1
    requires forall i :: 0 <= i < |picks| ==> picks[i] in SamplesAt(cfg, ticks, i + 1)
    requires forall i :: 0 < i < |ticks| ==> ticks[i].now - ticks[i - 1].now >= 1_000_000
    ensures var passed := ticks[|picks|].now - ticks[0].now;
            0 <= passed - 1_000_000 * SumMs(Printed(picks)) <= |picks| * 999_999
  {
    var clocks, ms := Clocks(ticks), Printed(picks);
    forall i | 0 <= i < |ms| ensures Measures(ms[i], i + 1, clocks, cfg.bucketMs) {
      SamplesAreExactly(cfg, ticks, i + 1, picks[i]);
    }
    MeasuresCover(clocks, ms, cfg.bucketMs);
  }
}
