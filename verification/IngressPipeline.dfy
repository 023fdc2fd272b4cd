/** From the racing kernel to the written sample: what the ingress samples of a run add up
    to, read by their labels alone. */
module IngressPipeline {
  import opened Wrappers
  import opened Checkpoint
  import opened CheckpointRuns
  import opened Protocols
  import opened Frames
  import opened IngressMap
  import opened IngressLedger
  import IngressRows
  import opened IngressSamples
  import opened IngressAccounts

  /** A key as `udp_ingress` makes them. */
  predicate OfAFrame(k: UdpKey) {
    Addressed(k) && k.family == AF_INET
  }

  lemma {:induction false} FlowsAreOfFrames(capacity: nat, n: nat, events: seq<IngressMap.Event>)
    ensures forall k :: k in Flows(capacity, n, events) ==> OfAFrame(k)
  {
    if events != [] {
      FlowsAreOfFrames(capacity, n, events[..|events| - 1]);
      if events[|events| - 1].Arrive? {
        KeyOfAFrame(events[|events| - 1].skb);
      }
    }
  }

  lemma KeyOfAFrame(skb: Skb)
    ensures Classify(skb).Account? ==> OfAFrame(Classify(skb).key)
  {
  }

  /** A dump lists entries of the map, whatever else it does. */
  ghost predicate FromTheMap(capacity: nat, n: nat, events: seq<IngressMap.Event>, ticks: seq<Tick>) {
    forall i, j :: 0 <= i < |ticks| && 0 <= j < |ticks[i].ingress| ==>
      ticks[i].ingress[j].key in Exec(capacity, n, events).keys
  }

  lemma MapIsAlike(capacity: nat, n: nat, events: seq<IngressMap.Event>, ticks: seq<Tick>, k: UdpKey)
    requires FromTheMap(capacity, n, events, ticks) && OfAFrame(k)
    ensures DumpsAlike(ticks, k)
  {
    FlowsAreOfFrames(capacity, n, events);
    EntriesWithinCapacity(capacity, n, events);
    forall i, j | 0 <= i < |ticks| && 0 <= j < |ticks[i].ingress| ensures Alike(k, ticks[i].ingress[j].key) {
      assert OfAFrame(ticks[i].ingress[j].key);
    }
  }

  /** From the frames that race on many CPUs to the samples that are printed: in any mode,
      the unfiltered ingress samples that bear a flow's labels add up to exactly the packets
      and payload bytes that came for the flow between its first and its last reading, but
      for those in hand at either. */
  lemma SamplesAddUpToArrivals(
    cfg: Config, ticks: seq<Tick>, capacity: nat, n: nat, events: seq<IngressMap.Event>, cuts: seq<nat>, k: UdpKey)
    requires cfg.bucketMs > 0 && cfg.filter == IngressSamples.PASS_ALL && (cfg.reader ==> cfg.mode == Cookie)
    requires FromTheMap(capacity, n, events, ticks)
    requires IngressRows.Dumped(capacity, n, events, cuts, IngressDumps(ticks), k)
    ensures var samples := OfLayer(RunSamples(cfg, ticks), Ingress);
            var first, last := events[..cuts[0]], events[..cuts[|cuts| - 1]];
            var s, t := Exec(capacity, n, first), Exec(capacity, n, last);
            && Total(samples, LabelsOfKey(k), 0) ==
                 (IngressRows.CountAll(capacity, n, last, k, n) - IngressRows.Sum(t.cpus, IngressRows.WaitingAt(k))) -
                 (IngressRows.CountAll(capacity, n, first, k, n) - IngressRows.Sum(s.cpus, IngressRows.WaitingAt(k)))
            && Total(samples, LabelsOfKey(k), 1) ==
                 (IngressRows.PayloadAll(capacity, n, last, k, n) - IngressRows.Sum(t.cpus, IngressRows.OwedAt(k))) -
                 (IngressRows.PayloadAll(capacity, n, first, k, n) - IngressRows.Sum(s.cpus, IngressRows.OwedAt(k)))
  {
    FlowsAreOfFrames(capacity, n, events[..cuts[0]]);
    EntriesWithinCapacity(capacity, n, events[..cuts[0]]);
    assert k in Exec(capacity, n, events[..cuts[0]]).keys;
    MapIsAlike(capacity, n, events, ticks, k);
    LabelsAccountForTheRun(cfg, ticks, k, 0);
    LabelsAccountForTheRun(cfg, ticks, k, 1);
    IngressRows.RunReportsArrivals(capacity, n, events, cuts, IngressDumps(ticks), k);
  }
}
