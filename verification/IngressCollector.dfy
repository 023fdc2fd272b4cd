/** The ingress collector at work: a clock, two engines, and the labelling of rows. */
module IngressCollector {
  import opened Wrappers
  import opened Checkpoint
  import opened CheckpointEngine
  import opened CheckpointRuns
  import opened CheckpointClock
  import opened Frames
  import opened IngressSamples
  import Attribution

  class EbpfIngressCollector {
    const cfg: Config
    const clock: Clock
    const ingress: Engine<UdpKey, ()>
    const delivered: Engine<DeliveredKey, DeliveredValue>

    ghost predicate Valid() {
      && cfg.bucketMs > 0 && clock.bucketMs == cfg.bucketMs
      && (cfg.reader ==> cfg.mode == Cookie && cfg.enricher)
      && cfg.mode != Auto
      && ingress as object != delivered
    }

    constructor (
      a: Attribution.Attributor, filter: SampleFilter, bucketMs: int, names: map<nat, string>, ifname: string)
      requires a.Settled() && bucketMs > 0
      ensures Valid() && fresh(clock) && fresh(ingress) && fresh(delivered)
      ensures cfg == Config(a.mode, a.enricher, a.reader.Some?, filter, bucketMs, names, ifname)
      ensures clock.last == None && ingress.previous == map[] && delivered.previous == map[]
    {
      cfg := Config(a.mode, a.enricher, a.reader.Some?, filter, bucketMs, names, ifname);
      clock := new Clock(bucketMs);
      ingress := new Engine();
      delivered := new Engine();
    }

    method ReadCheckpoint(t: Tick) returns (samples: seq<UdpSample>)
      requires Valid()
      modifies clock, ingress, delivered
      ensures clock.last == Some(t.now)
      ensures ingress.previous == Aggregate(t.ingress)
      ensures delivered.previous == if cfg.reader then Aggregate(t.delivered) else old(delivered.previous)
      ensures samples == CheckpointSamples(cfg, old(clock.last), old(ingress.previous), old(delivered.previous), t)
    {
      var bucketStart, elapsedMs := clock.Tick(t.now);
      var at := Span(bucketStart, elapsedMs);
      samples := ReadIngress(at, t.ingress, t.ingressView);
      if cfg.reader {
        var more := ReadDelivered(at, t.delivered, t.deliveredView);
        samples := samples + more;
      }
    }

    method ReadIngress(at: Span, dump: IngressDump, view: Inventory) returns (samples: seq<UdpSample>)
      requires Valid()
      modifies ingress
      ensures ingress.previous == Aggregate(dump)
      ensures samples == IngressLabelled(cfg, at, Rows(old(ingress.previous), dump), view)
    {
      var rows := ingress.ReadFlows(dump);
      samples := LabelIngress(at, rows, view);
    }

    method LabelIngress(at: Span, rows: seq<IngressRow>, view: Inventory) returns (samples: seq<UdpSample>)
      ensures samples == IngressLabelled(cfg, at, rows, view)
    {
      samples := [];
      for i := 0 to |rows|
        invariant samples == IngressLabelled(cfg, at, rows[..i], view)
      {
        var sample := Bare(cfg, at, rows[i]);
        var enriched := [sample];
        if cfg.mode == Legacy && cfg.enricher {
          enriched := Enrich(sample, view(i));
        }
        var kept := Filtered(enriched);
        OneMoreIngress(cfg, at, rows, i, view);
        samples := samples + kept;
      }
      assert rows[..|rows|] == rows;
    }

    method ReadDelivered(at: Span, dump: DeliveredDump, view: Inventory) returns (samples: seq<UdpSample>)
      requires Valid()
      modifies delivered
      ensures delivered.previous == Aggregate(dump)
      ensures samples == DeliveredLabelled(cfg, at, Rows(old(delivered.previous), dump), view)
    {
      var rows := delivered.ReadFlows(dump);
      samples := LabelDelivered(at, rows, view);
    }

    method LabelDelivered(at: Span, rows: seq<DeliveredRow>, view: Inventory) returns (samples: seq<UdpSample>)
      ensures samples == DeliveredLabelled(cfg, at, rows, view)
    {
      samples := [];
      for i := 0 to |rows|
        invariant samples == DeliveredLabelled(cfg, at, rows[..i], view)
      {
        var sample := FromSocket(cfg, at, rows[i]);
        var enriched := [sample];
        if cfg.enricher {
          enriched := EnrichExact(sample, rows[i].first.value.socketInode, rows[i].key.socketCookie, view(i));
        }
        var kept := Filtered(enriched);
        OneMoreDelivered(cfg, at, rows, i, view);
        samples := samples + kept;
      }
      assert rows[..|rows|] == rows;
    }

    method Filtered(enriched: seq<UdpSample>) returns (samples: seq<UdpSample>)
      ensures samples == Kept(cfg.filter, enriched)
    {
      samples := [];
      for i := 0 to |enriched|
        invariant samples == Kept(cfg.filter, enriched[..i])
      {
        assert enriched[..i + 1][..i] == enriched[..i];
        if cfg.filter.Matches(enriched[i]) {
          samples := samples + [enriched[i]];
        }
      }
      assert enriched[..|enriched|] == enriched;
    }
  }

  lemma OneMoreIngress(cfg: Config, at: Span, rows: seq<IngressRow>, i: nat, view: Inventory)
    requires i < |rows|
    ensures IngressLabelled(cfg, at, rows[..i + 1], view)
         == IngressLabelled(cfg, at, rows[..i], view) + Kept(cfg.filter, IngressLabels(cfg, at, rows[i], view(i)))
  {
    assert rows[..i + 1][..i] == rows[..i];
  }

  lemma OneMoreDelivered(cfg: Config, at: Span, rows: seq<DeliveredRow>, i: nat, view: Inventory)
    requires i < |rows|
    ensures DeliveredLabelled(cfg, at, rows[..i + 1], view)
         == DeliveredLabelled(cfg, at, rows[..i], view) + Kept(cfg.filter, DeliveredLabels(cfg, at, rows[i], view(i)))
  {
    assert rows[..i + 1][..i] == rows[..i];
  }

  lemma OneMoreTick(cfg: Config, ticks: seq<Tick>, i: nat)
    requires cfg.bucketMs > 0 && i < |ticks|
    ensures LastClock(ticks[..i + 1]) == Some(ticks[i].now)
    ensures BaselineAfter(IngressDumps(ticks[..i + 1])) == Aggregate(ticks[i].ingress)
    ensures BaselineAfter(DeliveredDumps(ticks[..i + 1])) == Aggregate(ticks[i].delivered)
    ensures RunSamples(cfg, ticks[..i + 1]) == RunSamples(cfg, ticks[..i])
              + CheckpointSamples(cfg, LastClock(ticks[..i]), BaselineAfter(IngressDumps(ticks[..i])),
                                  BaselineAfter(DeliveredDumps(ticks[..i])), ticks[i])
  {
    assert ticks[..i + 1][..i] == ticks[..i];
  }

  /** The main loop, from a collector just started: what it writes is the run's samples,
      so everything proved about `RunSamples` holds of it. */
  method Watch(
    a: Attribution.Attributor, filter: SampleFilter, bucketMs: int, names: map<nat, string>, ifname: string,
    ticks: seq<Tick>)
    returns (written: seq<UdpSample>)
    requires a.Settled() && bucketMs > 0
    ensures written == RunSamples(Config(a.mode, a.enricher, a.reader.Some?, filter, bucketMs, names, ifname), ticks)
  {
    var collector := new EbpfIngressCollector(a, filter, bucketMs, names, ifname);
    var cfg := collector.cfg;
    written := [];
    for i := 0 to |ticks|
      invariant collector.clock.last == LastClock(ticks[..i])
      invariant collector.ingress.previous == BaselineAfter(IngressDumps(ticks[..i]))
      invariant cfg.reader ==> collector.delivered.previous == BaselineAfter(DeliveredDumps(ticks[..i]))
      invariant written == RunSamples(cfg, ticks[..i])
    {
      OneMoreTick(cfg, ticks, i);
      var samples := collector.ReadCheckpoint(ticks[i]);
      written := written + samples;
    }
    assert ticks[..|ticks|] == ticks;
  }
}
