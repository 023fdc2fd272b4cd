/** The same for delivery: from the packets that race to their sockets to the delivered
    samples of cookie mode. */
module DeliveryPipeline {
  import opened Wrappers
  import opened Checkpoint
  import opened CheckpointRuns
  import opened Protocols
  import opened DeliveryMap
  import opened DeliveryRows
  import opened DeliveryArrivals
  import IngressSamples
  import IngressAccounts
  import opened DeliveredAccounts

  /** The header fields of a packet that are addresses have 32 bits. */
  predicate Addressed(p: Packet) {
    p.flow.Some? ==> p.flow.value.srcIp4 < 0x1_0000_0000 && p.flow.value.dstIp4 < 0x1_0000_0000
  }

  ghost predicate AllAddressed(events: seq<Event>) {
    forall i :: 0 <= i < |events| && events[i].Arrive? ==> Addressed(events[i].packet)
  }

  predicate OfAPacket(k: DeliveredKey) {
    k.srcIp4 < 0x1_0000_0000 && k.dstIp4 < 0x1_0000_0000 && k.family == AF_INET
  }

  predicate CpuOfPackets(c: Cpu) {
    (!c.pc.Idle? ==> Addressed(c.pc.packet)) && (HasKey(c.pc) ==> OfAPacket(c.pc.key))
  }

  ghost predicate OfPackets(s: Kernel) {
    && (forall k :: k in s.keys ==> OfAPacket(k))
    && (forall i :: 0 <= i < |s.cpus| ==> CpuOfPackets(s.cpus[i]))
  }

  lemma CpuStaysOfPackets(capacity: nat, s: Kernel, c: Cpu)
    requires CpuOfPackets(c)
    ensures CpuOfPackets(CpuAfter(capacity, s, c))
  {
  }

  lemma {:induction false} AlwaysOfPackets(capacity: nat, n: nat, events: seq<Event>)
    requires AllAddressed(events)
    ensures OfPackets(Exec(capacity, Boot(n), events))
  {
    if events != [] {
      var before, e := events[..|events| - 1], events[|events| - 1];
      AlwaysOfPackets(capacity, n, before);
      var s := Exec(capacity, Boot(n), before);
      if e.Advance? && e.cpu < n {
        assert CpuOfPackets(s.cpus[e.cpu]);
        CpuStaysOfPackets(capacity, s, s.cpus[e.cpu]);
      }
    }
  }

  /** A dump lists entries of the map, whatever else it does. */
  ghost predicate FromTheMap(capacity: nat, n: nat, events: seq<Event>, ticks: seq<IngressSamples.Tick>) {
    forall i, j :: 0 <= i < |ticks| && 0 <= j < |ticks[i].delivered| ==>
      ticks[i].delivered[j].key in Exec(capacity, Boot(n), events).keys
  }

  lemma MapIsAlike(capacity: nat, n: nat, events: seq<Event>, ticks: seq<IngressSamples.Tick>, k: DeliveredKey)
    requires AllAddressed(events) && FromTheMap(capacity, n, events, ticks) && OfAPacket(k)
    ensures Alike(k, k) && DumpsAlike(ticks, k)
  {
    AlwaysOfPackets(capacity, n, events);
    forall i, j | 0 <= i < |ticks| && 0 <= j < |ticks[i].delivered| ensures Alike(k, ticks[i].delivered[j].key) {
      assert OfAPacket(ticks[i].delivered[j].key);
    }
  }

  /** What the delivered samples with the labels of a flow to a socket add up to. */
  function SampleTotal(cfg: IngressSamples.Config, ticks: seq<IngressSamples.Tick>, k: DeliveredKey, c: nat): int
    requires cfg.bucketMs > 0
  {
    IngressAccounts.Total(
      IngressSamples.OfLayer(IngressSamples.RunSamples(cfg, ticks), IngressSamples.Delivered),
      IngressAccounts.LabelsOfSocket(k), c)
  }

  /** For a socket that has its cookie at the first reading and keeps it: the unfiltered
      delivered samples that bear the labels of a flow to the socket add up to at least the
      packets and payload bytes that came for it between its first and its last reading,
      but for what was in hand at either, and to exactly that if and only if each of its
      rows with something to write was written once. */
  lemma SamplesAddUpToArrivalsIff(
    cfg: IngressSamples.Config, ticks: seq<IngressSamples.Tick>, capacity: nat, n: nat, events: seq<Event>,
    cuts: seq<nat>, k: DeliveredKey, sock: SocketKey, f: Flow, more: seq<Event>)
    requires cfg.bucketMs > 0 && cfg.filter == IngressSamples.PASS_ALL && cfg.enricher && cfg.reader
    requires cfg.mode == IngressSamples.Cookie
    requires AllAddressed(events) && FromTheMap(capacity, n, events, ticks)
    requires CookieKept(capacity, n, events, cuts, IngressSamples.DeliveredDumps(ticks), k, sock, f, more)
    ensures var first, last := events[..cuts[0]], events[..cuts[|cuts| - 1]];
            var packets := Added(capacity, n, last, k, sock, f, false) - Added(capacity, n, first, k, sock, f, false);
            var bytes := Added(capacity, n, last, k, sock, f, true) - Added(capacity, n, first, k, sock, f, true);
            && SampleTotal(cfg, ticks, k, 0) >= packets && SampleTotal(cfg, ticks, k, 1) >= bytes
            && (SampleTotal(cfg, ticks, k, 0) == packets <==> RunWrittenOnce(ticks, k, 0))
            && (SampleTotal(cfg, ticks, k, 1) == bytes <==> RunWrittenOnce(ticks, k, 1))
  {
    ListedIsOfAPacket(capacity, n, events, cuts, IngressSamples.DeliveredDumps(ticks), k);
    MapIsAlike(capacity, n, events, ticks, k);
    LabelsAccountForDeliveryIff(cfg, ticks, k, 0);
    LabelsAccountForDeliveryIff(cfg, ticks, k, 1);
    RunReportsArrivals(capacity, n, events, cuts, IngressSamples.DeliveredDumps(ticks), k, sock, f, more);
  }

  lemma ListedIsOfAPacket<V>(
    capacity: nat, n: nat, events: seq<Event>, cuts: seq<nat>, dumps: seq<seq<Entry<DeliveredKey, V>>>, k: DeliveredKey)
    requires AllAddressed(events) && Dumped(capacity, n, events, cuts, dumps, k)
    ensures OfAPacket(k)
  {
    var first := events[..cuts[0]];
    assert AllAddressed(first);
    AlwaysOfPackets(capacity, n, first);
  }
}
