/** From the racing kernel to the emitted row: what the dumps of one ingress map make
    the collector report. */
module IngressRows {
  import opened Checkpoint
  import opened CheckpointRuns
  import opened CheckpointSplits
  import opened Frames
  import opened IngressMap
  import opened IngressLedger

  function Sum(cpus: seq<Cpu>, f: Cpu -> int): int {
    if cpus == [] then 0 else Sum(cpus[..|cpus| - 1], f) + f(cpus[|cpus| - 1])
  }

  lemma {:induction false} SumUpdated(cpus: seq<Cpu>, i: nat, c: Cpu, f: Cpu -> int)
    requires i < |cpus|
    ensures Sum(cpus[i := c], f) == Sum(cpus, f) - f(cpus[i]) + f(c)
  {
    var n := |cpus| - 1;
    if i == n {
      assert cpus[i := c][..n] == cpus[..n];
    } else {
      assert cpus[i := c][..n] == cpus[..n][i := c];
      SumUpdated(cpus[..n], i, c, f);
    }
  }

  function PacketsAt(k: UdpKey): Cpu -> int { (c: Cpu) => CellOf(c, k).packets as int }
  function BytesAt(k: UdpKey): Cpu -> int { (c: Cpu) => CellOf(c, k).bytes as int }

  /** Bytes of `k` whose packet is counted already. */
  function HalfDone(c: Cpu, k: UdpKey): nat {
    if c.pc.AtBytes? && c.pc.key == k then c.pc.payload else 0
  }
  function HalfDoneAt(k: UdpKey): Cpu -> int { (c: Cpu) => HalfDone(c, k) as int }

  function Packets(s: Kernel, k: UdpKey): int { Sum(s.cpus, PacketsAt(k)) }
  function Bytes(s: Kernel, k: UdpKey): int { Sum(s.cpus, BytesAt(k)) }
  function HalfDoneBytes(s: Kernel, k: UdpKey): int { Sum(s.cpus, HalfDoneAt(k)) }

  /** The counters of `k` as a dump reads them now. */
  function Reading(s: Kernel, k: UdpKey): Counters {
    [Packets(s, k), Bytes(s, k)]
  }

  /** The cells of `k` as bpftool lists them, one for each CPU. */
  function CellsOf(cpus: seq<Cpu>, k: UdpKey): seq<Counters> {
    seq(|cpus|, i requires 0 <= i < |cpus| => [CellOf(cpus[i], k).packets, CellOf(cpus[i], k).bytes])
  }

  /** The reading is the parser's sum over the CPUs' cells. */
  lemma {:induction false} ReadingIsCpuSum(cpus: seq<Cpu>, k: UdpKey)
    requires cpus != []
    ensures CpuSum(CellsOf(cpus, k)) == [Sum(cpus, PacketsAt(k)), Sum(cpus, BytesAt(k))]
  {
    var n := |cpus| - 1;
    var cells := CellsOf(cpus, k);
    assert cells[..n] == CellsOf(cpus[..n], k);
    var last := [CellOf(cpus[n], k).packets, CellOf(cpus[n], k).bytes];
    assert CpuSum(cells) == Add(CpuSum(cells[..n]), last);
    if n > 0 {
      ReadingIsCpuSum(cpus[..n], k);
    } else {
      assert cells[..n] == [] && cpus[..n] == [];
    }
  }

  // ------------------------------------------------------------------- byte bound

  ghost predicate Bounded(s: Kernel) {
    forall i :: 0 <= i < |s.cpus| && !s.cpus[i].pc.Idle? ==> s.cpus[i].pc.payload <= MAX_PAYLOAD
  }

  lemma {:induction false} PayloadsAreBounded(capacity: nat, n: nat, events: seq<Event>)
    ensures Bounded(Exec(capacity, n, events))
  {
    if events != [] {
      PayloadsAreBounded(capacity, n, events[..|events| - 1]);
    }
  }

  function ExecFrom(capacity: nat, s: Kernel, events: seq<Event>): Kernel {
    if events == [] then s
    else Step(capacity, ExecFrom(capacity, s, events[..|events| - 1]), events[|events| - 1])
  }

  lemma CpuStepBound(keys: set<UdpKey>, c: Cpu, k: UdpKey)
    requires !c.pc.Idle? ==> c.pc.payload <= MAX_PAYLOAD
    ensures var d := Advanced(keys, c);
            var packets := CellOf(d, k).packets - CellOf(c, k).packets;
            && 0 <= packets && CellOf(c, k).bytes <= CellOf(d, k).bytes
            && (CellOf(d, k).bytes + HalfDone(d, k)) - (CellOf(c, k).bytes + HalfDone(c, k)) <= MAX_PAYLOAD * packets
  {
    if !c.pc.Idle? && c.pc.key != k {
      assert CellOf(Advanced(keys, c), k) == CellOf(c, k);
    }
  }

  lemma StaysBounded(capacity: nat, s: Kernel, e: Event)
    requires Bounded(s)
    ensures Bounded(Step(capacity, s, e))
  {
  }

  lemma StepBound(capacity: nat, s: Kernel, e: Event, k: UdpKey)
    requires Bounded(s)
    ensures var t := Step(capacity, s, e);
            && Packets(s, k) <= Packets(t, k) && Bytes(s, k) <= Bytes(t, k)
            && (Bytes(t, k) + HalfDoneBytes(t, k)) - (Bytes(s, k) + HalfDoneBytes(s, k)) <=
               MAX_PAYLOAD * (Packets(t, k) - Packets(s, k))
  {
    if e.cpu < |s.cpus| {
      var c := s.cpus[e.cpu];
      var d := Step(capacity, s, e).cpus[e.cpu];
      SumUpdated(s.cpus, e.cpu, d, PacketsAt(k));
      SumUpdated(s.cpus, e.cpu, d, BytesAt(k));
      SumUpdated(s.cpus, e.cpu, d, HalfDoneAt(k));
      if e.Advance? {
        CpuStepBound(s.keys, c, k);
      }
    }
  }

  lemma {:induction false} SumNonnegative(cpus: seq<Cpu>, f: Cpu -> int)
    requires forall i :: 0 <= i < |cpus| ==> f(cpus[i]) >= 0
    ensures Sum(cpus, f) >= 0
  {
    if cpus != [] {
      SumNonnegative(cpus[..|cpus| - 1], f);
    }
  }

  /** Between any two moments of one map, bytes grow by at most 65527 for each packet
      counted, plus what was half done at the first moment. */
  lemma {:induction false} BytesFollowPackets(capacity: nat, s: Kernel, events: seq<Event>, k: UdpKey)
    requires Bounded(s)
    ensures var t := ExecFrom(capacity, s, events);
            && Bounded(t)
            && Packets(s, k) <= Packets(t, k) && Bytes(s, k) <= Bytes(t, k)
            && Bytes(t, k) - Bytes(s, k) <= MAX_PAYLOAD * (Packets(t, k) - Packets(s, k))
               + HalfDoneBytes(s, k) - HalfDoneBytes(t, k)
  {
    if events != [] {
      BytesFollowPackets(capacity, s, events[..|events| - 1], k);
      StepBound(capacity, ExecFrom(capacity, s, events[..|events| - 1]), events[|events| - 1], k);
    }
  }

  /** A row has a packet and at most 65527 bytes for each. */
  predicate WithinBound(delta: Counters) {
    1 <= At(delta, 0) && At(delta, 1) <= MAX_PAYLOAD * At(delta, 0)
  }

  /** The row of a flow between two readings of one map, if there is one, is in bounds. */
  ghost predicate RowOk(capacity: nat, s: Kernel, events: seq<Event>, k: UdpKey) {
    var before, now := Reading(s, k), Reading(ExecFrom(capacity, s, events), k);
    Grew(before, now) ==> WithinBound(Growth(before, now))
  }

  lemma GrowthOfReadings(before: Counters, now: Counters)
    requires |before| == |now| == 2
    ensures var d := Growth(before, now);
            && At(d, 0) == Pos(now[0] - before[0]) && At(d, 1) == Pos(now[1] - before[1])
            && (Grew(before, now) <==> now[0] > before[0] || now[1] > before[1])
  {
    var d := Growth(before, now);
    assert |d| == 2 && d[0] == Pos(now[0] - before[0]) && d[1] == Pos(now[1] - before[1]);
  }

  /** Every row obeys the bound up to what was half done at its first reading. */
  lemma RowFollowsHalfDone(capacity: nat, s: Kernel, events: seq<Event>, k: UdpKey)
    requires Bounded(s)
    ensures var delta := Growth(Reading(s, k), Reading(ExecFrom(capacity, s, events), k));
            At(delta, 1) <= MAX_PAYLOAD * At(delta, 0) + HalfDoneBytes(s, k)
    ensures HalfDoneBytes(s, k) == 0 ==> RowOk(capacity, s, events, k)
  {
    BytesFollowPackets(capacity, s, events, k);
    SumNonnegative(ExecFrom(capacity, s, events).cpus, HalfDoneAt(k));
    GrowthOfReadings(Reading(s, k), Reading(ExecFrom(capacity, s, events), k));
  }

  lemma {:induction false} SomeHalfDone(cpus: seq<Cpu>, k: UdpKey) returns (i: nat)
    requires Sum(cpus, HalfDoneAt(k)) != 0
    ensures i < |cpus| && HalfDone(cpus[i], k) > 0
  {
    var n := |cpus| - 1;
    if HalfDone(cpus[n], k) > 0 {
      i := n;
    } else {
      i := SomeHalfDone(cpus[..n], k);
    }
  }

  /** A CPU that is between its two increments when a dump reads the flow spoils the next
      row: its very next step makes one with its bytes and no packet. */
  lemma HalfDoneSpoilsNextRow(capacity: nat, s: Kernel, k: UdpKey, i: nat)
    requires i < |s.cpus| && HalfDone(s.cpus[i], k) > 0
    ensures Growth(Reading(s, k), Reading(ExecFrom(capacity, s, [Advance(i)]), k)) == [0, HalfDone(s.cpus[i], k)]
    ensures !RowOk(capacity, s, [Advance(i)], k)
  {
    var t := Step(capacity, s, Advance(i));
    assert [Advance(i)][..0] == [];
    assert ExecFrom(capacity, s, [Advance(i)]) == t;
    var d := Advanced(s.keys, s.cpus[i]);
    SumUpdated(s.cpus, i, d, PacketsAt(k));
    SumUpdated(s.cpus, i, d, BytesAt(k));
    GrowthOfReadings(Reading(s, k), Reading(t, k));
  }

  /** So from any moment, on any number of CPUs: every row that can follow a reading of
      the flow is in bounds if and only if no CPU was between its two increments for the
      flow when it was read. */
  lemma RowsObeyByteBoundIff(capacity: nat, s: Kernel, k: UdpKey)
    requires Bounded(s)
    ensures (forall events :: RowOk(capacity, s, events, k)) <==> HalfDoneBytes(s, k) == 0
  {
    if HalfDoneBytes(s, k) == 0 {
      forall events ensures RowOk(capacity, s, events, k) {
        RowFollowsHalfDone(capacity, s, events, k);
      }
    } else {
      var i := SomeHalfDone(s.cpus, k);
      HalfDoneSpoilsNextRow(capacity, s, k, i);
    }
  }

  // ------------------------------------------------------------------- whole runs

  function CountAll(capacity: nat, n: nat, events: seq<Event>, k: UdpKey, m: nat): nat {
    if m == 0 then 0 else CountAll(capacity, n, events, k, m - 1) + Count(Verdicts(capacity, n, events, m - 1), k)
  }

  function PayloadAll(capacity: nat, n: nat, events: seq<Event>, k: UdpKey, m: nat): nat {
    if m == 0 then 0 else PayloadAll(capacity, n, events, k, m - 1) + Payload(Verdicts(capacity, n, events, m - 1), k)
  }

  function WaitingAt(k: UdpKey): Cpu -> int { (c: Cpu) => Waiting(c.pc, k) as int }
  function OwedAt(k: UdpKey): Cpu -> int { (c: Cpu) => Owed(c.pc, k) as int }

  lemma {:induction false} SumsAreArrivals(capacity: nat, n: nat, events: seq<Event>, k: UdpKey, m: nat)
    requires m <= n && Admitted(capacity, Exec(capacity, n, events).keys, k)
    ensures var cpus := Exec(capacity, n, events).cpus[..m];
            && Sum(cpus, PacketsAt(k)) + Sum(cpus, WaitingAt(k)) == CountAll(capacity, n, events, k, m)
            && Sum(cpus, BytesAt(k)) + Sum(cpus, OwedAt(k)) == PayloadAll(capacity, n, events, k, m)
  {
    if m > 0 {
      var cpus := Exec(capacity, n, events).cpus;
      assert cpus[..m][..m - 1] == cpus[..m - 1];
      SumsAreArrivals(capacity, n, events, k, m - 1);
      AdmittedFlowsAreExact(capacity, n, events, m - 1, k);
    }
  }

  /** The reading of a flow that has an entry is exact, however full the map is: all
      packets and payload bytes that came for it on any CPU, but for those in hand. */
  lemma ReadingIsExact(capacity: nat, n: nat, events: seq<Event>, k: UdpKey)
    requires Admitted(capacity, Exec(capacity, n, events).keys, k)
    ensures var s := Exec(capacity, n, events);
            && Packets(s, k) == CountAll(capacity, n, events, k, n) - Sum(s.cpus, WaitingAt(k))
            && Bytes(s, k) == PayloadAll(capacity, n, events, k, n) - Sum(s.cpus, OwedAt(k))
  {
    SumsAreArrivals(capacity, n, events, k, n);
    var cpus := Exec(capacity, n, events).cpus;
    assert cpus[..n] == cpus;
  }

  lemma {:induction false} ReadingsGrow(capacity: nat, n: nat, events: seq<Event>, m: nat, k: UdpKey)
    requires m <= |events|
    ensures Packets(Exec(capacity, n, events[..m]), k) <= Packets(Exec(capacity, n, events), k)
    ensures Bytes(Exec(capacity, n, events[..m]), k) <= Bytes(Exec(capacity, n, events), k)
  {
    if m == |events| {
      assert events[..m] == events;
    } else {
      var before := events[..|events| - 1];
      assert before[..m] == events[..m];
      ReadingsGrow(capacity, n, before, m, k);
      PayloadsAreBounded(capacity, n, before);
      StepBound(capacity, Exec(capacity, n, before), events[|events| - 1], k);
    }
  }

  /** Each dump of a run lists the flow, which then has an entry, as it is at a moment of
      its own: `cuts[i]` is how many events precede that moment. */
  ghost predicate Dumped<V>(
    capacity: nat, n: nat, events: seq<Event>, cuts: seq<nat>, dumps: seq<seq<Entry<UdpKey, V>>>, k: UdpKey) {
    && |cuts| == |dumps| > 0
    && (forall i :: 0 <= i < |cuts| ==> cuts[i] <= |events|)
    && (forall i :: 0 < i < |cuts| ==> cuts[i - 1] <= cuts[i])
    && (forall i :: 0 <= i < |dumps| ==>
          && k in Exec(capacity, n, events[..cuts[i]]).keys
          && Listed(dumps[i], k) && SumFor(dumps[i], k) == Reading(Exec(capacity, n, events[..cuts[i]]), k))
  }

  lemma NondecreasingReadings<V>(
    capacity: nat, n: nat, events: seq<Event>, cuts: seq<nat>, dumps: seq<seq<Entry<UdpKey, V>>>, k: UdpKey, i: nat)
    requires Dumped(capacity, n, events, cuts, dumps, k) && 0 < i < |dumps|
    ensures forall c: nat :: c < 2 ==> At(SumFor(dumps[i - 1], k), c) <= At(SumFor(dumps[i], k), c)
  {
    assert events[..cuts[i]][..cuts[i - 1]] == events[..cuts[i - 1]];
    ReadingsGrow(capacity, n, events[..cuts[i]], cuts[i - 1], k);
  }

  /** The whole pipeline, from packets racing on many CPUs to the rows of a run of
      dumps: the run reports exactly the packets and payload bytes that came for the
      flow between its first and its last reading, but for those in hand at either. */
  lemma RunReportsArrivals<V>(
    capacity: nat, n: nat, events: seq<Event>, cuts: seq<nat>, dumps: seq<seq<Entry<UdpKey, V>>>, k: UdpKey)
    requires Dumped(capacity, n, events, cuts, dumps, k)
    ensures var first, last := events[..cuts[0]], events[..cuts[|cuts| - 1]];
            var s, t := Exec(capacity, n, first), Exec(capacity, n, last);
            && Emitted(RunRows(dumps), k, 0) ==
                 (CountAll(capacity, n, last, k, n) - Sum(t.cpus, WaitingAt(k))) -
                 (CountAll(capacity, n, first, k, n) - Sum(s.cpus, WaitingAt(k)))
            && Emitted(RunRows(dumps), k, 1) ==
                 (PayloadAll(capacity, n, last, k, n) - Sum(t.cpus, OwedAt(k))) -
                 (PayloadAll(capacity, n, first, k, n) - Sum(s.cpus, OwedAt(k)))
  {
    var first, last := events[..cuts[0]], events[..cuts[|cuts| - 1]];
    forall i | 0 < i < |dumps|
      ensures At(SumFor(dumps[i - 1], k), 0) <= At(SumFor(dumps[i], k), 0)
      ensures At(SumFor(dumps[i - 1], k), 1) <= At(SumFor(dumps[i], k), 1)
    {
      NondecreasingReadings(capacity, n, events, cuts, dumps, k, i);
    }
    SteadyStretch(dumps, k, 0);
    SteadyStretch(dumps, k, 1);
    ReadingIsExact(capacity, n, first, k);
    ReadingIsExact(capacity, n, last, k);
  }

  lemma {:induction false} ExecOnward(capacity: nat, n: nat, a: seq<Event>, b: seq<Event>)
    ensures Exec(capacity, n, a + b) == ExecFrom(capacity, Exec(capacity, n, a), b)
  {
    if b == [] {
      assert a + b == a;
    } else {
      var m := |b| - 1;
      assert (a + b)[..|a + b| - 1] == a + b[..m];
      ExecOnward(capacity, n, a, b[..m]);
    }
  }

  lemma RowOfTheRun<V>(prev: seq<Entry<UdpKey, V>>, dump: seq<Entry<UdpKey, V>>, r: Row<UdpKey, V>)
    requires r in Rows(Aggregate(prev), dump) && Listed(prev, r.key)
    ensures Grew(SumFor(prev, r.key), SumFor(dump, r.key))
    ensures r.delta == Growth(SumFor(prev, r.key), SumFor(dump, r.key))
  {
    IdentitiesAreTheListed(prev);
    RowsAreExact(Aggregate(prev), dump);
    assert ExactRow(Aggregate(prev), dump, r);
  }

  /** Every row that a run emits for the flow: it has a packet and at most 65527 bytes for
      each, unless a CPU was between the increments when the dump before read the flow;
      and then its bytes exceed the bound by no more than what was half done. */
  lemma EmittedRowsObeyByteBound<V>(
    capacity: nat, n: nat, events: seq<Event>, cuts: seq<nat>, dumps: seq<seq<Entry<UdpKey, V>>>, k: UdpKey, i: nat,
    r: Row<UdpKey, V>)
    requires Dumped(capacity, n, events, cuts, dumps, k) && 0 < i < |dumps|
    requires r in Rows(Aggregate(dumps[i - 1]), dumps[i]) && r.key == k
    ensures var half := HalfDoneBytes(Exec(capacity, n, events[..cuts[i - 1]]), k);
            && (half == 0 ==> WithinBound(r.delta))
            && At(r.delta, 1) <= MAX_PAYLOAD * At(r.delta, 0) + half
  {
    var first, now := events[..cuts[i - 1]], events[..cuts[i]];
    var more := now[|first|..];
    assert now == first + more;
    ExecOnward(capacity, n, first, more);
    PayloadsAreBounded(capacity, n, first);
    RowFollowsHalfDone(capacity, Exec(capacity, n, first), more, k);
    RowOfTheRun(dumps[i - 1], dumps[i], r);
  }

  // --------------------------------------------------- between the two increments

  lemma SumOfOne(c: Cpu, f: Cpu -> int)
    ensures Sum([c], f) == f(c)
  {
    assert [c][..0] == [];
  }

  lemma ExecMore(capacity: nat, n: nat, events: seq<Event>, e: Event)
    ensures Exec(capacity, n, events + [e]) == Step(capacity, Exec(capacity, n, events), e)
  {
    var all := events + [e];
    assert all[..|all| - 1] == events;
  }

  /** A packet on one CPU, up to the point between its two increments. */
  function HalfARun(skb: Skb): seq<Event> {
    [] + [Arrive(0, skb)] + [Advance(0)] + [Advance(0)] + [Advance(0)] + [Advance(0)]
  }

  lemma HalfARunCounts(capacity: nat, skb: Skb)
    requires capacity > 0 && Classify(skb).Account?
    ensures var v := Classify(skb);
            var cpu := Cpu(AtBytes(v.key, v.payload), map[], map[v.key := Cell(1, 0)]);
            Exec(capacity, 1, HalfARun(skb)) == Kernel({v.key}, [cpu])
  {
    var e0 := [] + [Arrive(0, skb)];
    ExecMore(capacity, 1, [], Arrive(0, skb));
    ExecMore(capacity, 1, e0, Advance(0));
    ExecMore(capacity, 1, e0 + [Advance(0)], Advance(0));
    ExecMore(capacity, 1, e0 + [Advance(0)] + [Advance(0)], Advance(0));
    ExecMore(capacity, 1, e0 + [Advance(0)] + [Advance(0)] + [Advance(0)], Advance(0));
    var v := Classify(skb);
    var c := Cpu(AtLookup(v.key, v.payload), map[], map[]);
    assert Exec(capacity, 1, e0).cpus == [c];
    assert Exec(capacity, 1, e0 + [Advance(0)] + [Advance(0)]).keys == {v.key};
  }

  /** A reading between the two increments is reachable: one packet on one CPU, and the
      next row has its bytes and no packet. */
  lemma RowWithoutPackets(capacity: nat, skb: Skb)
    requires capacity > 0 && Classify(skb).Account? && Classify(skb).payload > 0
    ensures var k := Classify(skb).key;
            var s := Exec(capacity, 1, HalfARun(skb));
            && Growth(Reading(s, k), Reading(Step(capacity, s, Advance(0)), k)) == [0, Classify(skb).payload]
            && HalfDoneBytes(s, k) == Classify(skb).payload
  {
    HalfARunCounts(capacity, skb);
    OwesItsBytes(capacity, Exec(capacity, 1, HalfARun(skb)), Classify(skb).key, Classify(skb).payload);
  }

  lemma OwesItsBytes(capacity: nat, s: Kernel, k: UdpKey, payload: nat)
    requires payload > 0 && s == Kernel({k}, [Cpu(AtBytes(k, payload), map[], map[k := Cell(1, 0)])])
    ensures Growth(Reading(s, k), Reading(Step(capacity, s, Advance(0)), k)) == [0, payload]
    ensures HalfDoneBytes(s, k) == payload
  {
    var c, d := s.cpus[0], Advanced(s.keys, s.cpus[0]);
    assert s.cpus == [c] && s.cpus[0 := d] == [d];
    SumOfOne(c, PacketsAt(k));
    SumOfOne(c, BytesAt(k));
    SumOfOne(c, HalfDoneAt(k));
    SumOfOne(d, PacketsAt(k));
    SumOfOne(d, BytesAt(k));
  }
}
