/** From the rows of a checkpoint to the samples that are written: labels, the layer,
    the owning process, the filter. */
module IngressSamples {
  import opened Wrappers
  import opened Checkpoint
  import opened CheckpointRuns
  import opened CheckpointClock
  import opened Addresses
  import opened Frames
  import DeliveryMap

  datatype Layer = Ingress | Delivered

  datatype Mode = Nothing | Auto | Cookie | Legacy

  /** One row of the socket inventory. */
  datatype ProcessSocket = ProcessSocket(
    hostPid: nat, containerPid: nat, processName: string, netnsId: nat, containerId: string,
    socketInode: nat, localIp: string, localPort: nat)

  type DeliveredKey = DeliveryMap.DeliveredKey

  datatype DeliveredValue = DeliveredValue(socketInode: nat, ifindex: nat)

  type IngressRow = Row<UdpKey, ()>
  type DeliveredRow = Row<DeliveredKey, DeliveredValue>
  type IngressDump = seq<Entry<UdpKey, ()>>
  type DeliveredDump = seq<Entry<DeliveredKey, DeliveredValue>>

  datatype UdpSample = UdpSample(
    bucketStart: int, bucketMs: int, srcIp: string, dstIp: string, srcPort: nat, dstPort: nat,
    ipProto: nat, ifindex: nat, ifname: string, packets: int, bytes: int, layer: Layer,
    socketId: nat, netnsId: nat, containerId: string, processName: string, hostPid: nat, containerPid: nat)

  datatype SampleFilter = SampleFilter(
    srcIp: Option<string>, dstIp: Option<string>, srcPort: Option<nat>, dstPort: Option<nat>,
    ifname: Option<string>, processName: Option<string>, layer: Option<Layer>)
  {
    predicate Matches(s: UdpSample) {
      && (srcIp.None? || s.srcIp == srcIp.value)
      && (dstIp.None? || s.dstIp == dstIp.value)
      && (srcPort.None? || s.srcPort == srcPort.value)
      && (dstPort.None? || s.dstPort == dstPort.value)
      && (ifname.None? || s.ifname == ifname.value)
      && (processName.None? || s.processName == processName.value)
      && (layer.None? || s.layer == layer.value)
    }
  }

  const PASS_ALL := SampleFilter(None, None, None, None, None, None, None)

  /** What is fixed while a collector runs, and the interface names of the host. */
  datatype Config = Config(
    mode: Mode, enricher: bool, reader: bool, filter: SampleFilter, bucketMs: int,
    names: map<nat, string>, ifname: string)
  {
    function NameOf(ifindex: nat): string {
      if ifindex in names then names[ifindex] else ifname
    }
  }

  /** When a checkpoint happened: the start of its bucket and its interval. */
  datatype Span = Span(bucketStart: int, bucketMs: int)

  /** The sockets the enricher sees when it labels the i-th row. */
  type Inventory = nat -> seq<ProcessSocket>

  // ------------------------------------------------------------------------- labels

  function Bare(cfg: Config, at: Span, r: IngressRow): UdpSample {
    UdpSample(
      at.bucketStart, at.bucketMs, FromBpfInt(r.key.srcIp4), FromBpfInt(r.key.dstIp4),
      r.key.srcPort, r.key.dstPort, r.key.ipProto, r.key.ifindex, cfg.NameOf(r.key.ifindex),
      At(r.delta, 0), At(r.delta, 1), Ingress, 0, 0, "", "", 0, 0)
  }

  function FromSocket(cfg: Config, at: Span, r: DeliveredRow): UdpSample {
    UdpSample(
      at.bucketStart, at.bucketMs, FromBpfInt(r.key.srcIp4), FromBpfInt(r.key.dstIp4),
      r.key.srcPort, r.key.dstPort, r.key.ipProto, r.first.value.ifindex, cfg.NameOf(r.first.value.ifindex),
      At(r.delta, 0), At(r.delta, 1), Delivered, r.key.socketCookie, 0, "", "", 0, 0)
  }

  function OwnedBy(s: UdpSample, m: ProcessSocket): UdpSample {
    s.(netnsId := m.netnsId, containerId := m.containerId, processName := m.processName,
       hostPid := m.hostPid, containerPid := m.containerPid)
  }

  function LegacyCopy(s: UdpSample, m: ProcessSocket): UdpSample {
    OwnedBy(s.(layer := Delivered, socketId := m.socketInode), m)
  }

  function FindMatches(sockets: seq<ProcessSocket>, s: UdpSample): seq<ProcessSocket> {
    if sockets == [] then []
    else
      var n := |sockets| - 1;
      FindMatches(sockets[..n], s)
      + if LegacyMatch(sockets[n].localIp, sockets[n].localPort, s.dstIp, s.dstPort) then [sockets[n]] else []
  }

  function Holders(sockets: seq<ProcessSocket>, inode: nat): seq<ProcessSocket> {
    if inode == 0 || sockets == [] then []
    else
      var n := |sockets| - 1;
      Holders(sockets[..n], inode) + if sockets[n].socketInode == inode then [sockets[n]] else []
  }

  function LegacyCopies(s: UdpSample, matches: seq<ProcessSocket>): seq<UdpSample> {
    seq(|matches|, i requires 0 <= i < |matches| => LegacyCopy(s, matches[i]))
  }

  /** `enrich`: the sample itself, then one delivered copy for each matching socket. */
  method Enrich(s: UdpSample, sockets: seq<ProcessSocket>) returns (enriched: seq<UdpSample>)
    ensures enriched == [s] + LegacyCopies(s, FindMatches(sockets, s))
  {
    var matches := FindMatches(sockets, s);
    if matches == [] {
      return [s];
    }
    enriched := [s];
    for i := 0 to |matches|
      invariant enriched == [s] + LegacyCopies(s, matches)[..i]
    {
      enriched := enriched + [LegacyCopy(s, matches[i])];
    }
  }

  /** `enrich_exact`: one row for each process that holds the socket, or one bare row. */
  function EnrichExact(s: UdpSample, inode: nat, cookie: nat, sockets: seq<ProcessSocket>): seq<UdpSample> {
    var attributed := s.(layer := Delivered, socketId := cookie);
    var holders := Holders(sockets, inode);
    if holders == [] then [attributed]
    else seq(|holders|, i requires 0 <= i < |holders| => OwnedBy(attributed, holders[i]))
  }

  function Kept(filter: SampleFilter, samples: seq<UdpSample>): seq<UdpSample> {
    if samples == [] then []
    else
      var n := |samples| - 1;
      Kept(filter, samples[..n]) + if filter.Matches(samples[n]) then [samples[n]] else []
  }

  function IngressLabels(cfg: Config, at: Span, r: IngressRow, sockets: seq<ProcessSocket>): seq<UdpSample> {
    var s := Bare(cfg, at, r);
    if cfg.mode == Legacy && cfg.enricher then [s] + LegacyCopies(s, FindMatches(sockets, s)) else [s]
  }

  function DeliveredLabels(cfg: Config, at: Span, r: DeliveredRow, sockets: seq<ProcessSocket>): seq<UdpSample> {
    var s := FromSocket(cfg, at, r);
    if cfg.enricher then EnrichExact(s, r.first.value.socketInode, r.key.socketCookie, sockets) else [s]
  }

  function IngressLabelled(cfg: Config, at: Span, rows: seq<IngressRow>, view: Inventory): seq<UdpSample> {
    if rows == [] then []
    else
      var n := |rows| - 1;
      IngressLabelled(cfg, at, rows[..n], view) + Kept(cfg.filter, IngressLabels(cfg, at, rows[n], view(n)))
  }

  function DeliveredLabelled(cfg: Config, at: Span, rows: seq<DeliveredRow>, view: Inventory): seq<UdpSample> {
    if rows == [] then []
    else
      var n := |rows| - 1;
      DeliveredLabelled(cfg, at, rows[..n], view) + Kept(cfg.filter, DeliveredLabels(cfg, at, rows[n], view(n)))
  }

  // ---------------------------------------------------------------------------- runs

  /** Everything one checkpoint reads from outside. */
  datatype Tick = Tick(
    now: int, ingress: IngressDump, ingressView: Inventory, delivered: DeliveredDump, deliveredView: Inventory)

  function SpanOf(cfg: Config, last: Option<int>, t: Tick): Span
    requires cfg.bucketMs > 0
  {
    Span(BucketStart(t.now, cfg.bucketMs), Interval(last, t.now, cfg.bucketMs))
  }

  /** The rows of one checkpoint, labelled and filtered. */
  function CheckpointSamples(
    cfg: Config, last: Option<int>, prev: map<UdpKey, Counters>, deliveredPrev: map<DeliveredKey, Counters>, t: Tick)
    : seq<UdpSample>
    requires cfg.bucketMs > 0
  {
    var at := SpanOf(cfg, last, t);
    IngressLabelled(cfg, at, Rows(prev, t.ingress), t.ingressView)
    + if cfg.reader then DeliveredLabelled(cfg, at, Rows(deliveredPrev, t.delivered), t.deliveredView) else []
  }

  function IngressDumps(ticks: seq<Tick>): seq<IngressDump> {
    seq(|ticks|, i requires 0 <= i < |ticks| => ticks[i].ingress)
  }

  function DeliveredDumps(ticks: seq<Tick>): seq<DeliveredDump> {
    seq(|ticks|, i requires 0 <= i < |ticks| => ticks[i].delivered)
  }

  function LastClock(ticks: seq<Tick>): Option<int> {
    if ticks == [] then None else Some(ticks[|ticks| - 1].now)
  }

  function RunSamples(cfg: Config, ticks: seq<Tick>): seq<UdpSample>
    requires cfg.bucketMs > 0
  {
    if ticks == [] then []
    else
      var n := |ticks| - 1;
      var before := ticks[..n];
      RunSamples(cfg, before)
      + CheckpointSamples(cfg, LastClock(before), BaselineAfter(IngressDumps(before)),
                          BaselineAfter(DeliveredDumps(before)), ticks[n])
  }

  // ------------------------------------------------------------------ what is selected

  /** The heuristic selects exactly the matching sockets of the inventory ... */
  lemma {:induction false} FindMatchesIff(sockets: seq<ProcessSocket>, s: UdpSample, m: ProcessSocket)
    ensures m in FindMatches(sockets, s) <==> m in sockets && LegacyMatch(m.localIp, m.localPort, s.dstIp, s.dstPort)
  {
    if sockets != [] {
      var n := |sockets| - 1;
      FindMatchesIff(sockets[..n], s, m);
      assert sockets == sockets[..n] + [sockets[n]];
    }
  }

  /** ... the exact attribution exactly the processes that hold the inode ... */
  lemma {:induction false} HoldersIff(sockets: seq<ProcessSocket>, inode: nat, m: ProcessSocket)
    ensures m in Holders(sockets, inode) <==> m in sockets && inode != 0 && m.socketInode == inode
  {
    if sockets != [] {
      var n := |sockets| - 1;
      HoldersIff(sockets[..n], inode, m);
      assert sockets == sockets[..n] + [sockets[n]];
    }
  }

  /** ... and the filter exactly the samples that pass it. */
  lemma {:induction false} KeptIff(f: SampleFilter, samples: seq<UdpSample>, s: UdpSample)
    ensures s in Kept(f, samples) <==> s in samples && f.Matches(s)
  {
    if samples != [] {
      var n := |samples| - 1;
      KeptIff(f, samples[..n], s);
      assert samples == samples[..n] + [samples[n]];
    }
  }

  // ----------------------------------------------------- the same rows in every mode

  function OfLayer(samples: seq<UdpSample>, layer: Layer): seq<UdpSample> {
    Kept(PASS_ALL.(layer := Some(layer)), samples)
  }

  lemma {:induction false} KeptConcat(f: SampleFilter, a: seq<UdpSample>, b: seq<UdpSample>)
    ensures Kept(f, a + b) == Kept(f, a) + Kept(f, b)
  {
    if b == [] {
      assert a + b == a;
    } else {
      var n := |b| - 1;
      assert (a + b)[..|a + b| - 1] == a + b[..n];
      KeptConcat(f, a, b[..n]);
    }
  }

  predicate AllOf(samples: seq<UdpSample>, layer: Layer) {
    forall i :: 0 <= i < |samples| ==> samples[i].layer == layer
  }

  lemma {:induction false} KeptOfOneLayer(f: SampleFilter, samples: seq<UdpSample>, layer: Layer)
    requires AllOf(samples, layer)
    ensures AllOf(Kept(f, samples), layer)
    ensures OfLayer(samples, layer) == samples
  {
    if samples != [] {
      KeptOfOneLayer(f, samples[..|samples| - 1], layer);
    }
  }

  lemma {:induction false} NoneOfOtherLayer(samples: seq<UdpSample>, layer: Layer, other: Layer)
    requires AllOf(samples, layer) && other != layer
    ensures OfLayer(samples, other) == []
  {
    if samples != [] {
      NoneOfOtherLayer(samples[..|samples| - 1], layer, other);
    }
  }

  /** The configuration of a collector that attributes nothing. */
  function Unattributed(cfg: Config): Config {
    cfg.(mode := Nothing, enricher := false, reader := false)
  }

  lemma IngressLabelsByLayer(cfg: Config, at: Span, r: IngressRow, sockets: seq<ProcessSocket>)
    ensures OfLayer(Kept(cfg.filter, IngressLabels(cfg, at, r, sockets)), Ingress)
         == Kept(cfg.filter, IngressLabels(Unattributed(cfg), at, r, sockets))
    ensures OfLayer(Kept(cfg.filter, IngressLabels(cfg, at, r, sockets)), Delivered)
         == if cfg.mode == Legacy && cfg.enricher
            then Kept(cfg.filter, LegacyCopies(Bare(cfg, at, r), FindMatches(sockets, Bare(cfg, at, r)))) else []
  {
    var s := Bare(cfg, at, r);
    var own := Kept(cfg.filter, [s]);
    assert Bare(Unattributed(cfg), at, r) == s;
    KeptOfOneLayer(cfg.filter, [s], Ingress);
    KeptOfOneLayer(cfg.filter, own, Ingress);
    NoneOfOtherLayer(own, Ingress, Delivered);
    if cfg.mode == Legacy && cfg.enricher {
      var copies := LegacyCopies(s, FindMatches(sockets, s));
      KeptConcat(cfg.filter, [s], copies);
      KeptOfOneLayer(cfg.filter, copies, Delivered);
      var kept := Kept(cfg.filter, copies);
      KeptOfOneLayer(cfg.filter, kept, Delivered);
      NoneOfOtherLayer(kept, Delivered, Ingress);
      KeptConcat(PASS_ALL.(layer := Some(Ingress)), own, kept);
      KeptConcat(PASS_ALL.(layer := Some(Delivered)), own, kept);
    }
  }

  /** The delivered copies of the legacy heuristic. */
  function LegacyLabelled(cfg: Config, at: Span, rows: seq<IngressRow>, view: Inventory): seq<UdpSample> {
    if rows == [] then []
    else
      var n := |rows| - 1;
      var s := Bare(cfg, at, rows[n]);
      LegacyLabelled(cfg, at, rows[..n], view) + Kept(cfg.filter, LegacyCopies(s, FindMatches(view(n), s)))
  }

  lemma {:induction false} IngressLabelledByLayer(cfg: Config, at: Span, rows: seq<IngressRow>, view: Inventory)
    ensures OfLayer(IngressLabelled(cfg, at, rows, view), Ingress) == IngressLabelled(Unattributed(cfg), at, rows, view)
    ensures OfLayer(IngressLabelled(cfg, at, rows, view), Delivered)
         == if cfg.mode == Legacy && cfg.enricher then LegacyLabelled(cfg, at, rows, view) else []
  {
    if rows != [] {
      var n := |rows| - 1;
      IngressLabelledByLayer(cfg, at, rows[..n], view);
      IngressLabelsByLayer(cfg, at, rows[n], view(n));
      var tail := Kept(cfg.filter, IngressLabels(cfg, at, rows[n], view(n)));
      KeptConcat(PASS_ALL.(layer := Some(Ingress)), IngressLabelled(cfg, at, rows[..n], view), tail);
      KeptConcat(PASS_ALL.(layer := Some(Delivered)), IngressLabelled(cfg, at, rows[..n], view), tail);
    }
  }

  lemma {:induction false} DeliveredLabelledIsDelivered(cfg: Config, at: Span, rows: seq<DeliveredRow>, view: Inventory)
    ensures AllOf(DeliveredLabelled(cfg, at, rows, view), Delivered)
  {
    if rows != [] {
      var n := |rows| - 1;
      DeliveredLabelledIsDelivered(cfg, at, rows[..n], view);
      var labels := DeliveredLabels(cfg, at, rows[n], view(n));
      KeptOfOneLayer(cfg.filter, labels, Delivered);
    }
  }

  /** The one source of a checkpoint's delivered rows. */
  function DeliveredOf(
    cfg: Config, at: Span, prev: map<UdpKey, Counters>, deliveredPrev: map<DeliveredKey, Counters>, t: Tick)
    : seq<UdpSample>
  {
    if cfg.reader then DeliveredLabelled(cfg, at, Rows(deliveredPrev, t.delivered), t.deliveredView)
    else if cfg.mode == Legacy && cfg.enricher then LegacyLabelled(cfg, at, Rows(prev, t.ingress), t.ingressView)
    else []
  }

  /** The ingress rows of a checkpoint do not depend on the attribution mode, and its
      delivered rows come from one source: the heuristic's copies in legacy mode, the
      delivered map in cookie mode, nothing otherwise. */
  lemma CheckpointByLayer(
    cfg: Config, last: Option<int>, prev: map<UdpKey, Counters>, deliveredPrev: map<DeliveredKey, Counters>, t: Tick)
    requires cfg.bucketMs > 0
    requires cfg.reader ==> cfg.mode == Cookie
    ensures OfLayer(CheckpointSamples(cfg, last, prev, deliveredPrev, t), Ingress)
         == CheckpointSamples(Unattributed(cfg), last, prev, deliveredPrev, t)
    ensures OfLayer(CheckpointSamples(cfg, last, prev, deliveredPrev, t), Delivered)
         == DeliveredOf(cfg, SpanOf(cfg, last, t), prev, deliveredPrev, t)
  {
    var at := SpanOf(cfg, last, t);
    var ingress := IngressLabelled(cfg, at, Rows(prev, t.ingress), t.ingressView);
    IngressLabelledByLayer(cfg, at, Rows(prev, t.ingress), t.ingressView);
    if cfg.reader {
      var rows := Rows(deliveredPrev, t.delivered);
      var delivered := DeliveredLabelled(cfg, at, rows, t.deliveredView);
      DeliveredLabelledIsDelivered(cfg, at, rows, t.deliveredView);
      KeptOfOneLayer(PASS_ALL, delivered, Delivered);
      NoneOfOtherLayer(delivered, Delivered, Ingress);
      KeptConcat(PASS_ALL.(layer := Some(Ingress)), ingress, delivered);
      KeptConcat(PASS_ALL.(layer := Some(Delivered)), ingress, delivered);
    } else {
      assert ingress + [] == ingress;
    }
  }

  /** Over a whole run, the ingress rows are those of a collector that attributes
      nothing, whatever the mode, the sockets and the delivered map. */
  lemma {:induction false} IngressRowsIgnoreAttribution(cfg: Config, ticks: seq<Tick>)
    requires cfg.bucketMs > 0
    requires cfg.reader ==> cfg.mode == Cookie
    ensures OfLayer(RunSamples(cfg, ticks), Ingress) == RunSamples(Unattributed(cfg), ticks)
  {
    if ticks != [] {
      var n := |ticks| - 1;
      var before := ticks[..n];
      IngressRowsIgnoreAttribution(cfg, before);
      var prev, deliveredPrev := BaselineAfter(IngressDumps(before)), BaselineAfter(DeliveredDumps(before));
      CheckpointByLayer(cfg, LastClock(before), prev, deliveredPrev, ticks[n]);
      KeptConcat(PASS_ALL.(layer := Some(Ingress)), RunSamples(cfg, before),
                 CheckpointSamples(cfg, LastClock(before), prev, deliveredPrev, ticks[n]));
    }
  }
}
