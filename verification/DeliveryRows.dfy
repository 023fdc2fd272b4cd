/** From the racing receive hook to the delivered rows: what the dumps of one delivered
    map make the collector report. */
module DeliveryRows {
  import opened Checkpoint
  import opened CheckpointRuns
  import opened DeliveryMap

  /** The counters of `k` as a dump reads them now. */
  function Reading(s: Kernel, k: DeliveredKey): Counters {
    var v := Fold(CellsOf(s.cpus, k));
    [v.packets, v.bytes]
  }

  lemma CellGrows(capacity: nat, s: Kernel, c: Cpu, k: DeliveredKey)
    requires c.cells.Keys <= s.keys
    ensures var d := CpuAfter(capacity, s, c);
            CellOf(c, k).packets <= CellOf(d, k).packets && CellOf(c, k).bytes <= CellOf(d, k).bytes
  {
    if c.pc.AtInsert? && Inserts(capacity, s.keys, c.pc) {
      assert c.pc.key !in c.cells;
    }
  }

  lemma {:induction false} FoldGrows(a: seq<Cell>, b: seq<Cell>)
    requires |a| == |b|
    requires forall i :: 0 <= i < |a| ==> a[i].packets <= b[i].packets && a[i].bytes <= b[i].bytes
    ensures Fold(a).packets <= Fold(b).packets && Fold(a).bytes <= Fold(b).bytes
  {
    if a != [] {
      FoldGrows(a[..|a| - 1], b[..|b| - 1]);
    }
  }

  lemma {:induction false} ReadingsGrow(capacity: nat, n: nat, events: seq<Event>, m: nat, k: DeliveredKey)
    requires m <= |events|
    ensures var a, b := Reading(Exec(capacity, Boot(n), events[..m]), k), Reading(Exec(capacity, Boot(n), events), k);
            a[0] <= b[0] && a[1] <= b[1]
  {
    if m == |events| {
      assert events[..m] == events;
    } else {
      var before, e := events[..|events| - 1], events[|events| - 1];
      assert before[..m] == events[..m];
      ReadingsGrow(capacity, n, before, m, k);
      AlwaysOnlyExisting(capacity, n, before);
      var s, t := Exec(capacity, Boot(n), before), Exec(capacity, Boot(n), events);
      if e.Advance? && e.cpu < n {
        CellGrows(capacity, s, s.cpus[e.cpu], k);
      }
      FoldGrows(CellsOf(s.cpus, k), CellsOf(t.cpus, k));
    }
  }

  /** Each dump of a run lists the flow, which then has an entry, as it is at a moment of
      its own: `cuts[i]` is how many events precede that moment. */
  ghost predicate Dumped<V>(
    capacity: nat, n: nat, events: seq<Event>, cuts: seq<nat>, dumps: seq<seq<Entry<DeliveredKey, V>>>,
    k: DeliveredKey) {
    && |cuts| == |dumps| > 0
    && (forall i :: 0 <= i < |cuts| ==> cuts[i] <= |events|)
    && (forall i :: 0 < i < |cuts| ==> cuts[i - 1] <= cuts[i])
    && (forall i :: 0 <= i < |dumps| ==>
          && k in Exec(capacity, Boot(n), events[..cuts[i]]).keys
          && Listed(dumps[i], k) && SumFor(dumps[i], k) == Reading(Exec(capacity, Boot(n), events[..cuts[i]]), k))
  }

  lemma NondecreasingReadings<V>(
    capacity: nat, n: nat, events: seq<Event>, cuts: seq<nat>, dumps: seq<seq<Entry<DeliveredKey, V>>>, k: DeliveredKey,
    i: nat)
    requires Dumped(capacity, n, events, cuts, dumps, k) && 0 < i < |dumps|
    ensures At(SumFor(dumps[i - 1], k), 0) <= At(SumFor(dumps[i], k), 0)
    ensures At(SumFor(dumps[i - 1], k), 1) <= At(SumFor(dumps[i], k), 1)
  {
    assert events[..cuts[i]][..cuts[i - 1]] == events[..cuts[i - 1]];
    ReadingsGrow(capacity, n, events[..cuts[i]], cuts[i - 1], k);
  }

  /** The whole pipeline of delivery, from packets racing on many CPUs to the rows of a run:
      the run reports exactly the packets counted for the flow to the socket between its
      first and its last reading, and their payload bytes, but for those a CPU had still
      to add at either. */
  lemma RunReportsDeliveries<V>(
    capacity: nat, n: nat, events: seq<Event>, cuts: seq<nat>, dumps: seq<seq<Entry<DeliveredKey, V>>>, k: DeliveredKey)
    requires Dumped(capacity, n, events, cuts, dumps, k)
    ensures var s := Exec(capacity, Boot(n), events[..cuts[0]]);
            var t := Exec(capacity, Boot(n), events[..cuts[|cuts| - 1]]);
            && Emitted(RunRows(dumps), k, 0) == TallyOfAll(t.cpus, k) - TallyOfAll(s.cpus, k)
            && Emitted(RunRows(dumps), k, 1) ==
                 (BytesOfAll(t.cpus, k) - OwedByAll(t.cpus, k)) - (BytesOfAll(s.cpus, k) - OwedByAll(s.cpus, k))
  {
    forall i | 0 < i < |dumps|
      ensures At(SumFor(dumps[i - 1], k), 0) <= At(SumFor(dumps[i], k), 0)
      ensures At(SumFor(dumps[i - 1], k), 1) <= At(SumFor(dumps[i], k), 1)
    {
      NondecreasingReadings(capacity, n, events, cuts, dumps, k, i);
    }
    SteadyStretch(dumps, k, 0);
    SteadyStretch(dumps, k, 1);
    ReadingNamesItsSocket(capacity, n, events[..cuts[0]], k);
    ReadingNamesItsSocket(capacity, n, events[..cuts[|cuts| - 1]], k);
  }
}
