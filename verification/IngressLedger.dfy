/** What the racing ingress runs add up to: nothing is lost, nothing is counted twice,
    and the map turns packets away exactly when the flows do not fit. */
module IngressLedger {
  import opened Frames
  import opened IngressMap

  // ------------------------------------------------------------------ conservation

  ghost function SumPackets(cells: map<UdpKey, Cell>): nat {
    if cells == map[] then 0
    else
      var k :| k in cells;
      cells[k].packets + SumPackets(cells - {k})
  }

  lemma {:induction false} SumPacketsWithout(cells: map<UdpKey, Cell>, k: UdpKey)
    requires k in cells
    ensures SumPackets(cells) == cells[k].packets + SumPackets(cells - {k})
    decreases |cells|
  {
    var j :| j in cells && SumPackets(cells) == cells[j].packets + SumPackets(cells - {j});
    if j != k {
      SumPacketsWithout(cells - {j}, k);
      SumPacketsWithout(cells - {k}, j);
      assert cells - {j} - {k} == cells - {k} - {j};
    }
  }

  lemma SumPacketsUpdated(c: Cpu, k: UdpKey, cell: Cell)
    ensures SumPackets(c.cells[k := cell]) == SumPackets(c.cells) - CellOf(c, k).packets + cell.packets
  {
    var updated := c.cells[k := cell];
    SumPacketsWithout(updated, k);
    if k in c.cells {
      SumPacketsWithout(c.cells, k);
      assert updated - {k} == c.cells - {k};
    } else {
      assert updated - {k} == c.cells;
    }
  }

  function AllDrops(c: Cpu): nat {
    DropsOf(c, EthBounds) + DropsOf(c, NotIp) + DropsOf(c, IpBounds) + DropsOf(c, NotUdp) +
    DropsOf(c, IhlShort) + DropsOf(c, UdpBounds) + DropsOf(c, PullFail) + DropsOf(c, MapFull)
  }

  /** Does this event end a run on CPU `cpu`? */
  predicate Finishes(capacity: nat, n: nat, before: seq<Event>, e: Event, cpu: nat) {
    cpu < n && e.cpu == cpu &&
    var was := Exec(capacity, n, before).cpus[cpu].pc;
    var now := Step(capacity, Exec(capacity, n, before), e).cpus[cpu].pc;
    if e.Arrive? then was.Idle? && Classify(e.skb).Drop? else !was.Idle? && now.Idle?
  }

  /** The number of completed runs of the program on CPU `cpu`. */
  function Completed(capacity: nat, n: nat, events: seq<Event>, cpu: nat): nat {
    if events == [] then 0
    else
      var before, e := events[..|events| - 1], events[|events| - 1];
      Completed(capacity, n, before, cpu) + if Finishes(capacity, n, before, e, cpu) then 1 else 0
  }

  /** On each CPU: counted packets and drops together are the completed runs, plus the
      run that has counted its packet and not yet its bytes; and every packet taken up
      is completed or in hand. */
  lemma {:induction false} CpuConserves(capacity: nat, n: nat, events: seq<Event>, cpu: nat)
    requires cpu < n
    ensures var c := Exec(capacity, n, events).cpus[cpu];
            SumPackets(c.cells) + AllDrops(c) == Completed(capacity, n, events, cpu) + if c.pc.AtBytes? then 1 else 0
    ensures |Verdicts(capacity, n, events, cpu)| ==
            Completed(capacity, n, events, cpu) + if Exec(capacity, n, events).cpus[cpu].pc.Idle? then 0 else 1
  {
    if events != [] {
      var before, e := events[..|events| - 1], events[|events| - 1];
      CpuConserves(capacity, n, before, cpu);
      var s := Exec(capacity, n, before);
      if e.cpu == cpu {
        match e
        case Arrive(_, skb) => CpuArrivalConserves(s.cpus[cpu], skb);
        case Advance(_) => CpuStepConserves(s.keys, s.cpus[cpu]);
      }
    }
  }

  lemma OneMoreDrop(c: Cpu, r: Reason)
    ensures AllDrops(Dropped(c, r)) == AllDrops(c) + 1
  {
    forall q ensures DropsOf(Dropped(c, r), q) == DropsOf(c, q) + (if q == r then 1 else 0) {
      OneMoreDropOf(c, r, q);
    }
    match r
    case EthBounds =>
    case NotIp =>
    case IpBounds =>
    case NotUdp =>
    case IhlShort =>
    case UdpBounds =>
    case PullFail =>
    case MapFull =>
  }

  lemma OneMoreDropOf(c: Cpu, r: Reason, q: Reason)
    ensures DropsOf(Dropped(c, r), q) == DropsOf(c, q) + if q == r then 1 else 0
  {
  }

  lemma CpuArrivalConserves(c: Cpu, skb: Skb)
    ensures var d := Arrived(c, skb);
            SumPackets(d.cells) + AllDrops(d) ==
            SumPackets(c.cells) + AllDrops(c) + (if Classify(skb).Drop? then 1 else 0) && !d.pc.AtBytes?
  {
    if Classify(skb).Drop? {
      OneMoreDrop(c, Classify(skb).reason);
    }
  }

  lemma CpuStepConserves(keys: set<UdpKey>, c: Cpu)
    ensures var d := Advanced(keys, c);
            SumPackets(d.cells) + AllDrops(d) - (if d.pc.AtBytes? then 1 else 0) ==
            SumPackets(c.cells) + AllDrops(c) - (if c.pc.AtBytes? then 1 else 0) +
            if !c.pc.Idle? && d.pc.Idle? then 1 else 0
  {
    if c.pc.AtRelookup? && c.pc.key !in keys {
      OneMoreDrop(c, MapFull);
    }
    if c.pc.AtPackets? || c.pc.AtBytes? {
      SumPacketsUpdated(c, c.pc.key, Advanced(keys, c).cells[c.pc.key]);
    }
  }

  function TotalDrops(cpus: seq<Cpu>): nat {
    if cpus == [] then 0 else TotalDrops(cpus[..|cpus| - 1]) + AllDrops(cpus[|cpus| - 1])
  }

  ghost function TotalPackets(cpus: seq<Cpu>): nat {
    if cpus == [] then 0 else TotalPackets(cpus[..|cpus| - 1]) + SumPackets(cpus[|cpus| - 1].cells)
  }

  function BetweenIncrements(cpus: seq<Cpu>): nat {
    if cpus == [] then 0
    else BetweenIncrements(cpus[..|cpus| - 1]) + if cpus[|cpus| - 1].pc.AtBytes? then 1 else 0
  }

  /** Completed runs on the first `m` CPUs. */
  function AllCompleted(capacity: nat, n: nat, events: seq<Event>, m: nat): nat {
    if m == 0 then 0 else AllCompleted(capacity, n, events, m - 1) + Completed(capacity, n, events, m - 1)
  }

  lemma {:induction false} FirstCpusConserve(capacity: nat, n: nat, events: seq<Event>, m: nat)
    requires m <= n
    ensures var cpus := Exec(capacity, n, events).cpus[..m];
            TotalPackets(cpus) + TotalDrops(cpus) == AllCompleted(capacity, n, events, m) + BetweenIncrements(cpus)
  {
    if m > 0 {
      var cpus := Exec(capacity, n, events).cpus;
      assert cpus[..m][..m - 1] == cpus[..m - 1];
      FirstCpusConserve(capacity, n, events, m - 1);
      CpuConserves(capacity, n, events, m - 1);
    }
  }

  /** In every reachable state, packets counted over all entries and CPUs plus drops
      over all reasons and CPUs are the completed runs of the program, up to the runs
      that are between their two increments. */
  lemma NothingLostNothingDoubled(capacity: nat, n: nat, events: seq<Event>)
    ensures var s := Exec(capacity, n, events);
            TotalPackets(s.cpus) + TotalDrops(s.cpus) ==
            AllCompleted(capacity, n, events, n) + BetweenIncrements(s.cpus)
  {
    FirstCpusConserve(capacity, n, events, n);
    var cpus := Exec(capacity, n, events).cpus;
    assert cpus[..n] == cpus;
  }

  // ---------------------------------------------------------------------- capacity

  /** Entries never exceed the capacity, are all flows that came, and hold every cell
      ever written; a CPU past the insert finds its key unless the map was full. */
  ghost predicate Sound(capacity: nat, s: Kernel, flows: set<UdpKey>) {
    && |s.keys| <= capacity && s.keys <= flows
    && (forall i :: 0 <= i < |s.cpus| ==> SoundCpu(capacity, s.keys, s.cpus[i], flows))
  }

  ghost predicate SoundCpu(capacity: nat, keys: set<UdpKey>, c: Cpu, flows: set<UdpKey>) {
    && c.cells.Keys <= keys
    && (!c.pc.Idle? ==> c.pc.key in flows)
    && (c.pc.AtPackets? || c.pc.AtBytes? ==> c.pc.key in keys)
    && (c.pc.AtRelookup? ==> c.pc.key in keys || |keys| >= capacity)
  }

  lemma GrowingKeys(capacity: nat, keys: set<UdpKey>, pc: Pc)
    requires |keys| <= capacity
    ensures keys <= KeysAfter(capacity, keys, pc) && |keys| <= |KeysAfter(capacity, keys, pc)| <= capacity
    ensures pc.AtInsert? ==> pc.key in KeysAfter(capacity, keys, pc) || |KeysAfter(capacity, keys, pc)| >= capacity
  {
    if pc.AtInsert? && |keys| < capacity && pc.key in keys {
      assert keys + {pc.key} == keys;
    }
  }

  lemma SoundStep(capacity: nat, s: Kernel, e: Event, flows: set<UdpKey>, more: set<UdpKey>)
    requires Sound(capacity, s, flows) && flows <= more
    requires e.Arrive? && e.cpu < |s.cpus| && s.cpus[e.cpu].pc.Idle? && Classify(e.skb).Account? ==>
             Classify(e.skb).key in more
    ensures Sound(capacity, Step(capacity, s, e), more)
  {
    if e.cpu < |s.cpus| && e.Advance? {
      GrowingKeys(capacity, s.keys, s.cpus[e.cpu].pc);
    }
  }

  lemma {:induction false} AlwaysSound(capacity: nat, n: nat, events: seq<Event>)
    ensures Sound(capacity, Exec(capacity, n, events), Flows(capacity, n, events))
  {
    if events != [] {
      var before, e := events[..|events| - 1], events[|events| - 1];
      AlwaysSound(capacity, n, before);
      SoundStep(capacity, Exec(capacity, n, before), e, Flows(capacity, n, before), Flows(capacity, n, events));
    }
  }

  lemma EntriesWithinCapacity(capacity: nat, n: nat, events: seq<Event>)
    ensures |Exec(capacity, n, events).keys| <= capacity
    ensures Exec(capacity, n, events).keys <= Flows(capacity, n, events)
    ensures forall i :: 0 <= i < n ==> Exec(capacity, n, events).cpus[i].cells.Keys <= Exec(capacity, n, events).keys
  {
    AlwaysSound(capacity, n, events);
    var s := Exec(capacity, n, events);
    forall i | 0 <= i < n ensures s.cpus[i].cells.Keys <= s.keys {
      assert SoundCpu(capacity, s.keys, s.cpus[i], Flows(capacity, n, events));
    }
  }

  /** As long as the flows that have come fit in the map, no packet is turned away,
      however the CPUs race to insert. */
  lemma {:induction false} NoneTurnedAway(capacity: nat, n: nat, events: seq<Event>, cpu: nat)
    requires |Flows(capacity, n, events)| <= capacity && cpu < n
    ensures DropsOf(Exec(capacity, n, events).cpus[cpu], MapFull) == 0
  {
    if events != [] {
      var before, e := events[..|events| - 1], events[|events| - 1];
      var flows := Flows(capacity, n, before);
      Within(flows, Flows(capacity, n, events));
      NoneTurnedAway(capacity, n, before, cpu);
      AlwaysSound(capacity, n, before);
      var s := Exec(capacity, n, before);
      var c := s.cpus[cpu];
      assert SoundCpu(capacity, s.keys, c, flows);
      if e == Advance(cpu) && c.pc.AtRelookup? && c.pc.key !in s.keys {
        Within(s.keys + {c.pc.key}, flows);
        assert false;
      }
    }
  }

  lemma Within<T>(a: set<T>, b: set<T>)
    requires a <= b
    ensures |a| <= |b|
  {
    assert b == a + (b - a);
  }

  lemma {:induction false} CountedFlow(vs: seq<Verdict>, k: UdpKey)
    requires exists i :: 0 <= i < |vs| && vs[i].Account? && vs[i].key == k
    ensures Count(vs, k) > 0
  {
    var i :| 0 <= i < |vs| && vs[i].Account? && vs[i].key == k;
    var n := |vs| - 1;
    if i < n {
      assert vs[..n][i].Account? && vs[..n][i].key == k;
      CountedFlow(vs[..n], k);
    }
  }

  /** Every flow has come to some CPU. */
  lemma {:induction false} FlowCameTo(capacity: nat, n: nat, events: seq<Event>, k: UdpKey) returns (cpu: nat)
    requires k in Flows(capacity, n, events)
    ensures cpu < n && Count(Verdicts(capacity, n, events, cpu), k) > 0
  {
    var before, e := events[..|events| - 1], events[|events| - 1];
    if k in Flows(capacity, n, before) {
      cpu := FlowCameTo(capacity, n, before, k);
      var vs := Verdicts(capacity, n, before, cpu);
      if e.Arrive? {
        assert (vs + [Classify(e.skb)])[..|vs|] == vs;
      }
    } else {
      cpu := e.cpu;
      var vs := Verdicts(capacity, n, before, cpu);
      assert (vs + [Classify(e.skb)])[..|vs|] == vs;
    }
  }

  ghost predicate Quiet(s: Kernel) {
    forall i :: 0 <= i < |s.cpus| ==> s.cpus[i].pc.Idle?
  }

  ghost predicate NoneDroppedFull(s: Kernel) {
    forall i :: 0 <= i < |s.cpus| ==> DropsOf(s.cpus[i], MapFull) == 0
  }

  /** When all CPUs are idle, the full-map drop counters are zero exactly if the flows
      that have come fit in the map. */
  lemma MapFullExactlyWhenFlowsDoNotFit(capacity: nat, n: nat, events: seq<Event>)
    requires Quiet(Exec(capacity, n, events))
    ensures NoneDroppedFull(Exec(capacity, n, events)) <==> |Flows(capacity, n, events)| <= capacity
  {
    var s, flows := Exec(capacity, n, events), Flows(capacity, n, events);
    if |flows| <= capacity {
      forall i | 0 <= i < n ensures DropsOf(s.cpus[i], MapFull) == 0 {
        NoneTurnedAway(capacity, n, events, i);
      }
    }
    if NoneDroppedFull(s) {
      AlwaysSound(capacity, n, events);
      forall k | k in flows ensures k in s.keys {
        var cpu := FlowCameTo(capacity, n, events, k);
        LedgersHold(capacity, n, events, cpu);
        assert FlowLedger(s.cpus[cpu], Verdicts(capacity, n, events, cpu), k);
        assert SoundCpu(capacity, s.keys, s.cpus[cpu], flows);
      }
      Within(flows, s.keys);
    }
  }

  // ------------------------------------------------------------ flows with an entry

  /** A flow has its entry, or there is room for it. */
  predicate Admitted(capacity: nat, keys: set<UdpKey>, k: UdpKey) {
    k in keys || |keys| < capacity
  }

  /** All of a flow that a CPU has taken up is in its cell or in its hand. */
  ghost predicate Exact(c: Cpu, vs: seq<Verdict>, k: UdpKey) {
    && CellOf(c, k).packets + Waiting(c.pc, k) == Count(vs, k)
    && CellOf(c, k).bytes + Owed(c.pc, k) == Payload(vs, k)
  }

  lemma ExactArrives(c: Cpu, vs: seq<Verdict>, skb: Skb, k: UdpKey)
    requires c.pc.Idle? && Exact(c, vs, k)
    ensures Exact(Arrived(c, skb), vs + [Classify(skb)], k)
  {
    var more := vs + [Classify(skb)];
    assert more[..|more| - 1] == vs;
  }

  /** Only a refused relookup loses a packet, and it is never one of an admitted flow. */
  lemma ExactAdvances(capacity: nat, keys: set<UdpKey>, c: Cpu, vs: seq<Verdict>, k: UdpKey, flows: set<UdpKey>)
    requires SoundCpu(capacity, keys, c, flows) && Exact(c, vs, k) && Admitted(capacity, keys, k)
    ensures Exact(Advanced(keys, c), vs, k)
  {
    if !c.pc.Idle? && c.pc.key != k {
      assert CellOf(Advanced(keys, c), k) == CellOf(c, k);
    }
  }

  lemma AdmittedBefore(capacity: nat, keys: set<UdpKey>, pc: Pc, k: UdpKey)
    requires |keys| <= capacity && Admitted(capacity, KeysAfter(capacity, keys, pc), k)
    ensures Admitted(capacity, keys, k)
  {
    GrowingKeys(capacity, keys, pc);
  }

  /** However full the map is, and however the CPUs race: a flow that has an entry, or
      would get one, never had a packet turned away. */
  lemma {:induction false} AdmittedFlowsAreExact(capacity: nat, n: nat, events: seq<Event>, cpu: nat, k: UdpKey)
    requires cpu < n && Admitted(capacity, Exec(capacity, n, events).keys, k)
    ensures Exact(Exec(capacity, n, events).cpus[cpu], Verdicts(capacity, n, events, cpu), k)
  {
    if events != [] {
      var before, e := events[..|events| - 1], events[|events| - 1];
      var s := Exec(capacity, n, before);
      AlwaysSound(capacity, n, before);
      if e.Advance? && e.cpu < n {
        AdmittedBefore(capacity, s.keys, s.cpus[e.cpu].pc, k);
      }
      AdmittedFlowsAreExact(capacity, n, before, cpu, k);
      if e.cpu == cpu {
        match e
        case Arrive(_, skb) =>
          if s.cpus[cpu].pc.Idle? {
            ExactArrives(s.cpus[cpu], Verdicts(capacity, n, before, cpu), skb, k);
          }
        case Advance(_) =>
          assert SoundCpu(capacity, s.keys, s.cpus[cpu], Flows(capacity, n, before));
          ExactAdvances(capacity, s.keys, s.cpus[cpu], Verdicts(capacity, n, before, cpu), k,
            Flows(capacity, n, before));
      }
    }
  }
}
