/** From the hooks to the written channel samples, over every run of the map and its
    collectors. */
module ChannelPipeline {
  import opened Wrappers
  import opened Checkpoint
  import opened CheckpointRuns
  import opened ChannelHooks
  import opened ChannelRuns
  import opened Protocols
  import opened ChannelCollectors
  import opened ChannelAccounts

  /** The dumps that the collector running now has completed. */
  function Completed(cpus: nat, events: seq<Event>): seq<FlowDump>
    requires OnCpus(cpus, events)
  {
    if events == [] then []
    else
      var before, e := events[..|events| - 1], events[|events| - 1];
      match e
      case EndDump => Completed(cpus, before) + [Exec(cpus, before).pending]
      case Restart => []
      case _ => Completed(cpus, before)
  }

  /** How many events there were before it started. */
  function Started(events: seq<Event>): (at: nat)
    ensures at <= |events|
  {
    if events == [] then 0
    else if events[|events| - 1].Restart? then |events|
    else Started(events[..|events| - 1])
  }

  lemma OneMoreCompleted(dumps: seq<FlowDump>, dump: FlowDump)
    ensures RunRows(dumps + [dump]) == RunRows(dumps) + Rows(BaselineAfter(dumps), dump)
    ensures BaselineAfter(dumps + [dump]) == Aggregate(dump)
  {
    var more := dumps + [dump];
    assert more[..|more| - 1] == dumps;
  }

  /** The rows of the run system are the rows of its collectors' dumps: what the collector
      running now has emitted is what a run over the dumps it completed emits, and its
      baseline is the one such a run ends with. */
  lemma {:induction false} EmittedRowsAreRunRows(cpus: nat, events: seq<Event>)
    requires OnCpus(cpus, events)
    ensures OnCpus(cpus, events[..Started(events)])
    ensures var s := Exec(cpus, events);
            && s.previous == BaselineAfter(Completed(cpus, events))
            && s.emitted == Exec(cpus, events[..Started(events)]).emitted + RunRows(Completed(cpus, events))
  {
    if events != [] {
      var before, e := events[..|events| - 1], events[|events| - 1];
      EmittedRowsAreRunRows(cpus, before);
      if e.Restart? {
        assert events[..Started(events)] == events;
      } else {
        assert events[..Started(events)] == before[..Started(before)];
        RowsOnward(cpus, Exec(cpus, before), e, Exec(cpus, before[..Started(before)]).emitted, Completed(cpus, before));
      }
    }
  }

  /** A step of the run system, but for a restart, is one of the run over the dumps. */
  lemma RowsOnward(cpus: nat, s: System, e: Event, old_rows: seq<FlowRow>, dumps: seq<FlowDump>)
    requires (e.Hook? ==> e.run.cpu < cpus) && forall x :: x in s.cells ==> |s.cells[x]| == cpus
    requires !e.Restart? && s.previous == BaselineAfter(dumps) && s.emitted == old_rows + RunRows(dumps)
    ensures var t, more := Step(cpus, s, e), if e.EndDump? then dumps + [s.pending] else dumps;
            t.previous == BaselineAfter(more) && t.emitted == old_rows + RunRows(more)
  {
    if e.EndDump? {
      OneMoreCompleted(dumps, s.pending);
      Joined(old_rows, RunRows(dumps), Rows(s.previous, s.pending));
    }
  }

  lemma Joined<T>(a: seq<T>, b: seq<T>, c: seq<T>)
    ensures (a + b) + c == a + (b + c)
  {
  }

  lemma RunEmitsNoMore(cpus: nat, events: seq<Event>, k: FlowKey, c: nat)
    requires OnCpus(cpus, events)
    ensures Emitted(RunRows(Completed(cpus, events)), k, c) <= Emitted(Exec(cpus, events).emitted, k, c)
  {
    var start := events[..Started(events)];
    EmittedRowsAreRunRows(cpus, events);
    EmittedNeverExceedsTraffic(cpus, start, k, c);
    EmittedConcat(Exec(cpus, start).emitted, RunRows(Completed(cpus, events)), k, c);
  }

  /** In every run whatsoever: the unfiltered samples that bear the labels of a flow printed
      apart from the others never add up to more than the traffic that the hooks saw for it
      after a dump first read it, and what dumps listed again; so never to more than the
      traffic if no dump lists the flow twice. */
  lemma SamplesNeverExceedTraffic(cfg: Config, ticks: seq<Tick>, cpus: nat, events: seq<Event>, k: FlowKey, c: nat)
    requires cfg.bucketMs > 0 && cfg.filter == PASS_ALL && DumpsApart(cfg.proto, ticks, k)
    requires OnCpus(cpus, events) && Dumps(ticks) == Completed(cpus, events)
    ensures var total := ChannelAccounts.Total(ChannelCollectors.RunSamples(cfg, ticks), LabelsOfKey(cfg.proto, k), c);
            && total <= SeenSince(cpus, events, k, c) + RereadSince(cpus, events, k, c)
            && (OncePerDump(cpus, events, k) ==> total <= SeenSince(cpus, events, k, c))
  {
    LabelsAccountForTheRun(cfg, ticks, k, c);
    RunEmitsNoMore(cpus, events, k, c);
    EmittedNeverExceedsTraffic(cpus, events, k, c);
  }

  // -------------------------------------------------------------------- the equality

  /** A flow that survives was first read by the collector running now. */
  lemma {:induction false} NothingBeforeTheStart(cpus: nat, events: seq<Event>, k: FlowKey, c: nat)
    requires OnCpus(cpus, events) && Survives(cpus, events, k)
    ensures OnCpus(cpus, events[..Started(events)])
    ensures Emitted(Exec(cpus, events[..Started(events)]).emitted, k, c) == 0
  {
    if events != [] {
      var before, e := events[..|events| - 1], events[|events| - 1];
      if e.Restart? {
        assert events[..Started(events)] == events;
        UnreadFlow(cpus, events, k, c);
      } else {
        NothingBeforeTheStart(cpus, before, k, c);
        assert events[..Started(events)] == before[..Started(before)];
      }
    }
  }

  /** And for a flow that survives, once listed by every dump, they add up to exactly the
      traffic seen from its first reading to its last one. */
  lemma SamplesEqualTraffic(cfg: Config, ticks: seq<Tick>, cpus: nat, events: seq<Event>, k: FlowKey, c: nat)
    requires cfg.bucketMs > 0 && cfg.filter == PASS_ALL && DumpsApart(cfg.proto, ticks, k)
    requires OnCpus(cpus, events) && Dumps(ticks) == Completed(cpus, events)
    requires HasBeenRead(cpus, events, k) && Survives(cpus, events, k) && k in Exec(cpus, events).previous
    ensures var s := Exec(cpus, events);
            ChannelAccounts.Total(ChannelCollectors.RunSamples(cfg, ticks), LabelsOfKey(cfg.proto, k), c) ==
            SeenSince(cpus, events, k, c) - (Reading(s.cells, k, c) - At(s.previous[k], c))
  {
    LabelsAccountForTheRun(cfg, ticks, k, c);
    EmittedRowsAreRunRows(cpus, events);
    NothingBeforeTheStart(cpus, events, k, c);
    EmittedConcat(Exec(cpus, events[..Started(events)]).emitted, RunRows(Completed(cpus, events)), k, c);
    EmittedEqualsTraffic(cpus, events, k, c);
  }

  // ------------------------------------------------------------------------------ TCP

  /** The addresses of the sockets that the hooks read have 32 bits. */
  ghost predicate SocksAddressed(events: seq<Event>) {
    forall i :: 0 <= i < |events| ==> SockAddressed(events[i])
  }

  predicate SockAddressed(e: Event) {
    e.Hook? && e.run.sk.Some? ==> e.run.sk.value.rcvSaddr < 0x1_0000_0000 && e.run.sk.value.daddr < 0x1_0000_0000
  }

  predicate TcpKey(k: FlowKey) {
    ValidKey(IPPROTO_TCP, k) && Addressed(k)
  }

  ghost predicate TcpDump(dump: FlowDump) {
    forall i :: 0 <= i < |dump| ==> TcpKey(dump[i].key)
  }

  lemma {:induction false} TcpKeysOnly(cpus: nat, events: seq<Event>)
    requires OnCpus(cpus, events) && HooksOf(IPPROTO_TCP, events) && SocksAddressed(events)
    ensures forall k :: k in Exec(cpus, events).cells ==> Addressed(k)
    ensures TcpDump(Exec(cpus, events).pending)
  {
    KeysPassValidation(cpus, IPPROTO_TCP, events);
    if events != [] {
      var before, e := events[..|events| - 1], events[|events| - 1];
      assert SockAddressed(e);
      TcpKeysOnly(cpus, before);
    }
  }

  lemma {:induction false} CompletedAreTcp(cpus: nat, events: seq<Event>)
    requires OnCpus(cpus, events) && HooksOf(IPPROTO_TCP, events) && SocksAddressed(events)
    ensures forall i :: 0 <= i < |Completed(cpus, events)| ==> TcpDump(Completed(cpus, events)[i])
  {
    if events != [] {
      var before := events[..|events| - 1];
      CompletedAreTcp(cpus, before);
      TcpKeysOnly(cpus, before);
    }
  }

  /** Every TCP flow is printed apart, so the bound holds for all of them. */
  lemma TcpSamplesNeverExceedTraffic(cfg: Config, ticks: seq<Tick>, cpus: nat, events: seq<Event>, k: FlowKey, c: nat)
    requires cfg.bucketMs > 0 && cfg.filter == PASS_ALL && cfg.proto == IPPROTO_TCP
    requires OnCpus(cpus, events) && HooksOf(IPPROTO_TCP, events) && SocksAddressed(events)
    requires Dumps(ticks) == Completed(cpus, events) && TcpKey(k)
    ensures var samples := ChannelCollectors.RunSamples(cfg, ticks);
            var total := ChannelAccounts.Total(samples, LabelsOfKey(IPPROTO_TCP, k), c);
            && total <= SeenSince(cpus, events, k, c) + RereadSince(cpus, events, k, c)
            && (OncePerDump(cpus, events, k) ==> total <= SeenSince(cpus, events, k, c))
  {
    CompletedAreTcp(cpus, events);
    forall i | 0 <= i < |ticks| ensures DumpApart(IPPROTO_TCP, ticks[i].dump, k) {
      assert ticks[i].dump == Dumps(ticks)[i];
      TcpFlowsAreApart(ticks[i].dump, k);
    }
    SamplesNeverExceedTraffic(cfg, ticks, cpus, events, k, c);
  }
}
