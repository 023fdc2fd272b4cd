/** A channel map and its collector together, over every interleaving of hook runs on
    any CPU, evictions, reloads of the map, restarts of the collector, and dumps that
    read each entry at a moment of its own. */
module ChannelRuns {
  import opened Wrappers
  import opened Checkpoint
  import opened CheckpointEngine
  import opened CheckpointRuns
  import opened CheckpointSplits
  import opened PerCpuValue
  import opened ChannelHooks
  import opened Protocols

  type FlowEntry = Entry<FlowKey, FlowValue>

  datatype Event =
    | Hook(run: Run)
    | Evict(key: FlowKey)     // the LRU map drops an entry
    | Reload                  // the map is replaced by an empty one
    | Read(key: FlowKey)      // the dump reaches an entry, perhaps again, and copies its values
    | EndDump                 // the dump is complete: the collector takes its checkpoint
    | Restart                 // a new collector starts on the same map

  /** `pending` is the dump so far; `emitted` is every row ever emitted. */
  datatype System = System(
    cells: Cells, pending: seq<FlowEntry>, previous: map<FlowKey, Counters>, emitted: seq<Row<FlowKey, FlowValue>>)

  const BOOT := System(map[], [], map[], [])

  ghost predicate OnCpus(cpus: nat, events: seq<Event>) {
    forall i :: 0 <= i < |events| && events[i].Hook? ==> events[i].run.cpu < cpus
  }

  function ParsedEntry(key: FlowKey, values: seq<FlowValue>): FlowEntry {
    Entry(key, CountersOf(Fold(values)), Fold(values))
  }

  function Step(cpus: nat, s: System, e: Event): System
    requires e.Hook? ==> e.run.cpu < cpus
    requires forall k :: k in s.cells ==> |s.cells[k]| == cpus
  {
    match e
    case Hook(run) => s.(cells := HookStep(cpus, s.cells, run))
    case Evict(key) => s.(cells := s.cells - {key})
    case Reload => s.(cells := map[])
    case Read(key) =>
      if key in s.cells then s.(pending := s.pending + [ParsedEntry(key, s.cells[key])]) else s
    case EndDump =>
      System(s.cells, [], Aggregate(s.pending), s.emitted + Rows(s.previous, s.pending))
    case Restart => s.(pending := [], previous := map[])
  }

  function Exec(cpus: nat, events: seq<Event>): (s: System)
    requires OnCpus(cpus, events)
    ensures forall k :: k in s.cells ==> |s.cells[k]| == cpus
  {
    if events == [] then BOOT
    else Step(cpus, Exec(cpus, events[..|events| - 1]), events[|events| - 1])
  }

  // ---------------------------------------------------- what the hooks saw of a flow

  /** The traffic one event brings to counter `c` of flow `k`, whether or not it is
      counted. */
  function Traffic(e: Event, k: FlowKey, c: nat): (t: int)
    ensures t >= 0
  {
    if e.Hook? && FillKey(e.run.call, e.run.sk, e.run.cgroup) == Some(k) then At(Amounts(e.run.call), c) else 0
  }

  /** Has some dump read the flow by now? */
  predicate HasBeenRead(cpus: nat, events: seq<Event>, k: FlowKey)
    requires OnCpus(cpus, events)
  {
    if events == [] then false
    else
      var before, e := events[..|events| - 1], events[|events| - 1];
      HasBeenRead(cpus, before, k) || (e == Read(k) && k in Exec(cpus, before).cells)
  }

  /** The traffic the hooks saw for the flow since a dump first read it. */
  function SeenSince(cpus: nat, events: seq<Event>, k: FlowKey, c: nat): (t: int)
    requires OnCpus(cpus, events)
    ensures t >= 0
  {
    if events == [] then 0
    else
      var before, e := events[..|events| - 1], events[|events| - 1];
      if HasBeenRead(cpus, before, k) then SeenSince(cpus, before, k, c) + Traffic(e, k, c) else 0
  }

  function Reading(cells: Cells, k: FlowKey, c: nat): int {
    if k in cells then At(CountersOf(Fold(cells[k])), c) else 0
  }

  /** Does the event list a flow again that the dump in progress has listed? A dump of a
      map that evicts may restart, and then it does. */
  predicate Rereads(s: System, e: Event, k: FlowKey) {
    e == Read(k) && k in s.cells && Listed(s.pending, k)
  }

  /** What a flow's entry held whenever a dump listed it again. */
  function RereadSince(cpus: nat, events: seq<Event>, k: FlowKey, c: nat): (t: int)
    requires OnCpus(cpus, events)
  {
    if events == [] then 0
    else
      var before, e := events[..|events| - 1], events[|events| - 1];
      var s := Exec(cpus, before);
      RereadSince(cpus, before, k, c) + if Rereads(s, e, k) then Reading(s.cells, k, c) else 0
  }

  /** No dump of the run lists the flow twice. */
  predicate OncePerDump(cpus: nat, events: seq<Event>, k: FlowKey)
    requires OnCpus(cpus, events)
  {
    if events == [] then true
    else
      var before, e := events[..|events| - 1], events[|events| - 1];
      OncePerDump(cpus, before, k) && !Rereads(Exec(cpus, before), e, k)
  }

  lemma {:induction false} NothingReread(cpus: nat, events: seq<Event>, k: FlowKey, c: nat)
    requires OnCpus(cpus, events) && OncePerDump(cpus, events, k)
    ensures RereadSince(cpus, events, k, c) == 0
  {
    if events != [] {
      NothingReread(cpus, events[..|events| - 1], k, c);
    }
  }

  // ------------------------------------------------------------ readings and hooks

  lemma FoldLast(cell: seq<FlowValue>, c: nat)
    requires cell != []
    ensures At(CountersOf(Fold(cell)), c) ==
            At(CountersOf(Fold(cell[..|cell| - 1])), c) + At(CountersOf(cell[|cell| - 1]), c)
  {
    JoinReads(Fold(cell[..|cell| - 1]), cell[|cell| - 1], c);
  }

  /** Replacing the value of one CPU changes the sum by the difference. */
  lemma {:induction false} FoldUpdate(cell: seq<FlowValue>, cpu: nat, v: FlowValue, c: nat)
    requires cpu < |cell|
    ensures At(CountersOf(Fold(cell[cpu := v])), c) ==
            At(CountersOf(Fold(cell)), c) - At(CountersOf(cell[cpu]), c) + At(CountersOf(v), c)
  {
    var n := |cell| - 1;
    FoldLast(cell, c);
    FoldLast(cell[cpu := v], c);
    if cpu == n {
      assert cell[cpu := v][..n] == cell[..n];
    } else {
      assert cell[cpu := v][..n] == cell[..n][cpu := v];
      FoldUpdate(cell[..n], cpu, v, c);
    }
  }

  lemma {:induction false} NothingCounted(cell: seq<FlowValue>, c: nat)
    requires forall i :: 0 <= i < |cell| ==> At(CountersOf(cell[i]), c) == 0
    ensures At(CountersOf(Fold(cell)), c) == 0
  {
    if cell != [] {
      var n := |cell| - 1;
      NothingCounted(cell[..n], c);
      JoinReads(Fold(cell[..n]), cell[n], c);
    }
  }

  lemma JoinReads(a: FlowValue, v: FlowValue, c: nat)
    ensures At(CountersOf(Join(a, v)), c) == At(CountersOf(a), c) + At(CountersOf(v), c)
  {
  }

  lemma UpdatedReads(v: FlowValue, run: Run, c: nat)
    requires run.sk.Some?
    ensures At(CountersOf(Updated(v, run)), c) == At(CountersOf(v), c) + At(Amounts(run.call), c)
  {
    assert |Amounts(run.call)| == 5;
  }

  lemma QuietCall(call: Call, c: nat)
    requires !Accounts(call)
    ensures At(Amounts(call), c) == 0
  {
  }

  /** The reading of a cell after one more update on one CPU. */
  lemma UpdateReads(cell: seq<FlowValue>, run: Run, c: nat)
    requires run.cpu < |cell| && run.sk.Some?
    ensures At(CountersOf(Fold(cell[run.cpu := Updated(cell[run.cpu], run)])), c) ==
            At(CountersOf(Fold(cell)), c) + At(Amounts(run.call), c)
  {
    FoldUpdate(cell, run.cpu, Updated(cell[run.cpu], run), c);
    UpdatedReads(cell[run.cpu], run, c);
  }

  lemma HookOnPresentFlow(cpus: nat, cells: Cells, run: Run, k: FlowKey, c: nat)
    requires run.cpu < cpus && forall x :: x in cells ==> |cells[x]| == cpus
    requires k in cells
    ensures k in HookStep(cpus, cells, run)
    ensures Reading(HookStep(cpus, cells, run), k, c) == Reading(cells, k, c) + Traffic(Hook(run), k, c)
  {
    var key := FillKey(run.call, run.sk, run.cgroup);
    if key == Some(k) {
      UpdateReads(cells[k], run, c);
      if !Accounts(run.call) {
        QuietCall(run.call, c);
      }
    }
  }

  lemma HookOnAbsentFlow(cpus: nat, cells: Cells, run: Run, k: FlowKey, c: nat)
    requires run.cpu < cpus && forall x :: x in cells ==> |cells[x]| == cpus
    requires k !in cells
    ensures Reading(cells, k, c) == 0
    ensures Reading(HookStep(cpus, cells, run), k, c) ==
            if k in HookStep(cpus, cells, run) then Traffic(Hook(run), k, c) else 0
  {
    var after := HookStep(cpus, cells, run);
    if k in after {
      var fresh_cell := Fresh(cpus, run);
      assert after[k] == fresh_cell[run.cpu := Updated(fresh_cell[run.cpu], run)];
      UpdateReads(fresh_cell, run, c);
      NothingCounted(fresh_cell, c);
    }
  }

  /** A hook adds its amounts to the reading of its own flow, whichever CPU it runs on,
      or leaves it uncounted when the map does not take the new key. */
  lemma HookReading(cpus: nat, cells: Cells, run: Run, k: FlowKey, c: nat)
    requires run.cpu < cpus && forall x :: x in cells ==> |cells[x]| == cpus
    ensures var after := HookStep(cpus, cells, run);
            && Reading(cells, k, c) <= Reading(after, k, c) <= Reading(cells, k, c) + Traffic(Hook(run), k, c)
            && (k in cells ==> k in after && Reading(after, k, c) == Reading(cells, k, c) + Traffic(Hook(run), k, c))
  {
    if k in cells {
      HookOnPresentFlow(cpus, cells, run, k, c);
    } else {
      HookOnAbsentFlow(cpus, cells, run, k, c);
    }
  }

  // --------------------------------------------------------------- the upper bound

  function Total(s: System, k: FlowKey, c: nat): int {
    Emitted(s.emitted, k, c)
  }

  function Pending(s: System, k: FlowKey, c: nat): int {
    At(SumFor(s.pending, k), c)
  }

  function Baseline(s: System, k: FlowKey, c: nat): int {
    if k in s.previous then At(s.previous[k], c) else 0
  }

  /** What is emitted, what the map holds above the baseline, and what the dump in
      progress has read above it, are each covered by the traffic seen. */
  ghost predicate Covered(s: System, k: FlowKey, c: nat, seen: int) {
    && 0 <= Total(s, k, c) <= seen
    && 0 <= Reading(s.cells, k, c)
    && (k in s.previous ==>
          0 <= Baseline(s, k, c) && Total(s, k, c) + Reading(s.cells, k, c) <= Baseline(s, k, c) + seen)
    && (Listed(s.pending, k) ==>
          0 <= Pending(s, k, c) && Total(s, k, c) + Reading(s.cells, k, c) <= Pending(s, k, c) + seen)
    && (k in s.previous && Listed(s.pending, k) ==>
          Total(s, k, c) + Pending(s, k, c) <= Baseline(s, k, c) + seen)
  }

  lemma ReadPending(pending: seq<FlowEntry>, key: FlowKey, values: seq<FlowValue>, k: FlowKey, c: nat)
    ensures Listed(pending + [ParsedEntry(key, values)], k) == (Listed(pending, k) || k == key)
    ensures At(SumFor(pending + [ParsedEntry(key, values)], k), c) ==
            At(SumFor(pending, k), c) + if k == key then At(CountersOf(Fold(values)), c) else 0
    ensures !Listed(pending, k) ==> At(SumFor(pending, k), c) == 0
  {
    var e := ParsedEntry(key, values);
    ListedInConcat(pending, [e], k);
    assert Listed([e], k) <==> k == key by {
      assert [e][0].key == key;
    }
    OneMoreSum(pending, e);
    if !Listed(pending, k) {
      NothingToSum(pending, k);
    }
  }

  /** What the next checkpoint emits of the flow. */
  lemma EmittedAtEndDump(s: System, k: FlowKey, c: nat)
    ensures Emitted(s.emitted + Rows(s.previous, s.pending), k, c) == Total(s, k, c) +
            if k in s.previous && Listed(s.pending, k) then Pos(Pending(s, k, c) - Baseline(s, k, c)) else 0
  {
    EmittedConcat(s.emitted, Rows(s.previous, s.pending), k, c);
    EmittedByRows(s.previous, s.pending, k, c);
  }

  lemma EndDumpTotals(cpus: nat, s: System, k: FlowKey, c: nat)
    requires forall x :: x in s.cells ==> |s.cells[x]| == cpus
    ensures var t := Step(cpus, s, EndDump);
            && Total(t, k, c) == Total(s, k, c) +
                 (if k in s.previous && Listed(s.pending, k) then Pos(Pending(s, k, c) - Baseline(s, k, c)) else 0)
            && (k in t.previous <==> Listed(s.pending, k))
            && (k in t.previous ==> Baseline(t, k, c) == Pending(s, k, c))
            && t.pending == [] && t.cells == s.cells
  {
    EmittedAtEndDump(s, k, c);
    BaselineIsTheSum(s.pending, k);
  }

  lemma CoveredStep(cpus: nat, s: System, e: Event, k: FlowKey, c: nat, seen: int)
    requires e.Hook? ==> e.run.cpu < cpus
    requires forall x :: x in s.cells ==> |s.cells[x]| == cpus
    requires Covered(s, k, c, seen)
    ensures Covered(Step(cpus, s, e), k, c,
                    seen + Traffic(e, k, c) + if Rereads(s, e, k) then Reading(s.cells, k, c) else 0)
  {
    match e
    case Hook(run) => HookReading(cpus, s.cells, run, k, c);
    case Read(key) => CoveredRead(cpus, s, key, k, c, seen);
    case EndDump => CoveredEndDump(cpus, s, k, c, seen);
    case _ =>
  }

  lemma CoveredRead(cpus: nat, s: System, key: FlowKey, k: FlowKey, c: nat, seen: int)
    requires forall x :: x in s.cells ==> |s.cells[x]| == cpus
    requires Covered(s, k, c, seen)
    ensures Covered(Step(cpus, s, Read(key)), k, c,
                    seen + if Rereads(s, Read(key), k) then Reading(s.cells, k, c) else 0)
  {
    if key in s.cells {
      ReadPending(s.pending, key, s.cells[key], k, c);
    }
  }

  lemma CoveredEndDump(cpus: nat, s: System, k: FlowKey, c: nat, seen: int)
    requires forall x :: x in s.cells ==> |s.cells[x]| == cpus
    requires Covered(s, k, c, seen)
    ensures Covered(Step(cpus, s, EndDump), k, c, seen)
  {
    EndDumpTotals(cpus, s, k, c);
  }

  lemma UnreadFlow(cpus: nat, events: seq<Event>, k: FlowKey, c: nat)
    requires OnCpus(cpus, events) && !HasBeenRead(cpus, events, k)
    ensures var s := Exec(cpus, events);
            k !in s.previous && !Listed(s.pending, k) && Total(s, k, c) == 0
    ensures SeenSince(cpus, events, k, c) == 0 && RereadSince(cpus, events, k, c) == 0
    ensures Reading(Exec(cpus, events).cells, k, c) >= 0
  {
    if events != [] {
      var before, e := events[..|events| - 1], events[|events| - 1];
      UnreadFlow(cpus, before, k, c);
      var s := Exec(cpus, before);
      match e
      case Hook(run) => HookReading(cpus, s.cells, run, k, c);
      case Read(key) =>
        if key in s.cells {
          ReadPending(s.pending, key, s.cells[key], k, c);
        }
      case EndDump => EndDumpTotals(cpus, s, k, c);
      case _ =>
    }
  }

  lemma {:induction false} AlwaysCovered(cpus: nat, events: seq<Event>, k: FlowKey, c: nat)
    requires OnCpus(cpus, events)
    ensures Covered(Exec(cpus, events), k, c, SeenSince(cpus, events, k, c) + RereadSince(cpus, events, k, c))
  {
    if !HasBeenRead(cpus, events, k) {
      UnreadFlow(cpus, events, k, c);
    } else {
      var before, e := events[..|events| - 1], events[|events| - 1];
      AlwaysCovered(cpus, before, k, c);
      if HasBeenRead(cpus, before, k) {
        CoveredStep(cpus, Exec(cpus, before), e, k, c, SeenSince(cpus, before, k, c) + RereadSince(cpus, before, k, c));
      } else {
        UnreadFlow(cpus, before, k, c);
        CoveredStep(cpus, Exec(cpus, before), e, k, c, 0);
      }
    }
  }

  /** In every run whatsoever, no counter of no flow is ever reported beyond the traffic
      the hooks saw for it after a dump first read it, and what dumps listed again; so
      never beyond the traffic if no dump lists the flow twice. */
  lemma EmittedNeverExceedsTraffic(cpus: nat, events: seq<Event>, k: FlowKey, c: nat)
    requires OnCpus(cpus, events)
    ensures 0 <= Emitted(Exec(cpus, events).emitted, k, c)
    ensures Emitted(Exec(cpus, events).emitted, k, c) <= SeenSince(cpus, events, k, c) + RereadSince(cpus, events, k, c)
    ensures OncePerDump(cpus, events, k) ==> Emitted(Exec(cpus, events).emitted, k, c) <= SeenSince(cpus, events, k, c)
  {
    AlwaysCovered(cpus, events, k, c);
    if OncePerDump(cpus, events, k) {
      NothingReread(cpus, events, k, c);
    }
  }

  // ------------------------------------------------------------------ the equality

  predicate Spares(s: System, e: Event, k: FlowKey) {
    e != Evict(k) && !e.Reload? && !e.Restart? && !Rereads(s, e, k) && (e.EndDump? ==> Listed(s.pending, k))
  }

  /** Since it was first read, the flow has stayed in the map, the collector has run
      on, and every dump that was completed has read the flow, once. */
  predicate Survives(cpus: nat, events: seq<Event>, k: FlowKey)
    requires OnCpus(cpus, events)
  {
    if events == [] then true
    else
      var before, e := events[..|events| - 1], events[|events| - 1];
      Survives(cpus, before, k) &&
      (HasBeenRead(cpus, before, k) ==>
         Spares(Exec(cpus, before), e, k))
  }

  /** Nothing is lost: what was emitted and what the map holds above the last baseline
      together are the traffic seen. */
  ghost predicate Conserved(s: System, k: FlowKey, c: nat, seen: int) {
    && k in s.cells
    && (k in s.previous || Listed(s.pending, k))
    && (k in s.previous ==>
          && Total(s, k, c) + Reading(s.cells, k, c) == Baseline(s, k, c) + seen
          && Baseline(s, k, c) <= Reading(s.cells, k, c))
    && (Listed(s.pending, k) ==>
          && (k in s.previous ==> Baseline(s, k, c) <= Pending(s, k, c))
          && Pending(s, k, c) <= Reading(s.cells, k, c))
    && (k !in s.previous ==>
          Total(s, k, c) == 0 && Reading(s.cells, k, c) == Pending(s, k, c) + seen)
  }

  lemma ConservedStep(cpus: nat, s: System, e: Event, k: FlowKey, c: nat, seen: int)
    requires e.Hook? ==> e.run.cpu < cpus
    requires forall x :: x in s.cells ==> |s.cells[x]| == cpus
    requires Conserved(s, k, c, seen)
    requires Spares(s, e, k)
    ensures Conserved(Step(cpus, s, e), k, c, seen + Traffic(e, k, c))
  {
    match e
    case Hook(run) => HookReading(cpus, s.cells, run, k, c);
    case Evict(key) =>
    case Read(key) =>
      if key in s.cells {
        ReadPending(s.pending, key, s.cells[key], k, c);
      }
    case EndDump => EndDumpTotals(cpus, s, k, c);
    case _ =>
  }

  /** For a flow that survives, what was emitted plus what has accumulated since the
      baseline reading is exactly the traffic the hooks saw since the first reading. */
  lemma {:induction false} SurvivorIsConserved(cpus: nat, events: seq<Event>, k: FlowKey, c: nat)
    requires OnCpus(cpus, events)
    requires HasBeenRead(cpus, events, k) && Survives(cpus, events, k)
    ensures Conserved(Exec(cpus, events), k, c, SeenSince(cpus, events, k, c))
  {
    var before, e := events[..|events| - 1], events[|events| - 1];
    var s := Exec(cpus, before);
    if HasBeenRead(cpus, before, k) {
      SurvivorIsConserved(cpus, before, k, c);
      ConservedStep(cpus, s, e, k, c, SeenSince(cpus, before, k, c));
    } else {
      UnreadFlow(cpus, before, k, c);
      ReadPending(s.pending, k, s.cells[k], k, c);
    }
  }

  /** Up to the last dump the total is exact: if no traffic has come since the flow's
      baseline was read, everything seen since the first reading has been emitted. */
  lemma EmittedEqualsTraffic(cpus: nat, events: seq<Event>, k: FlowKey, c: nat)
    requires OnCpus(cpus, events)
    requires HasBeenRead(cpus, events, k) && Survives(cpus, events, k)
    requires k in Exec(cpus, events).previous
    ensures var s := Exec(cpus, events);
            Emitted(s.emitted, k, c) ==
            SeenSince(cpus, events, k, c) - (Reading(s.cells, k, c) - At(s.previous[k], c))
    ensures var s := Exec(cpus, events);
            Reading(s.cells, k, c) == At(s.previous[k], c) ==>
              Emitted(s.emitted, k, c) == SeenSince(cpus, events, k, c)
  {
    SurvivorIsConserved(cpus, events, k, c);
  }

  lemma ExecMore(cpus: nat, events: seq<Event>, e: Event)
    requires OnCpus(cpus, events) && (e.Hook? ==> e.run.cpu < cpus)
    ensures OnCpus(cpus, events + [e])
    ensures Exec(cpus, events + [e]) == Step(cpus, Exec(cpus, events), e)
  {
    var all := events + [e];
    assert all[..|all| - 1] == events;
  }

  lemma SeenMore(cpus: nat, events: seq<Event>, e: Event, k: FlowKey, c: nat)
    requires OnCpus(cpus, events) && (e.Hook? ==> e.run.cpu < cpus) && HasBeenRead(cpus, events, k)
    ensures OnCpus(cpus, events + [e]) && HasBeenRead(cpus, events + [e], k)
    ensures SeenSince(cpus, events + [e], k, c) == SeenSince(cpus, events, k, c) + Traffic(e, k, c)
  {
    var all := events + [e];
    assert all[..|all| - 1] == events;
  }

  // ------------------------------------------------- dumps that list a flow repeatedly

  /** After `events` the dump lists the flow `n` times. */
  function Listings(events: seq<Event>, k: FlowKey, n: nat): seq<Event> {
    if n == 0 then events else Listings(events, k, n - 1) + [Read(k)]
  }

  lemma AfterRead(cpus: nat, s: System, k: FlowKey, c: nat)
    requires forall x :: x in s.cells ==> |s.cells[x]| == cpus
    requires k in s.cells
    ensures var t := Step(cpus, s, Read(k));
            && t.cells == s.cells && t.previous == s.previous && t.emitted == s.emitted && Listed(t.pending, k)
            && Pending(t, k, c) == Pending(s, k, c) + Reading(s.cells, k, c)
            && (!Listed(s.pending, k) ==> Pending(s, k, c) == 0)
  {
    ReadPending(s.pending, k, s.cells[k], k, c);
  }

  lemma OneTimesMore(n: nat, x: int)
    ensures (n + 1) * x == n * x + x
  {
  }

  /** The dump in progress has since `s` listed the flow `n` times. */
  ghost predicate HasListed(s: System, t: System, k: FlowKey, c: nat, n: nat) {
    && t.cells == s.cells && t.previous == s.previous && t.emitted == s.emitted
    && (Listed(t.pending, k) <==> n > 0) && Pending(t, k, c) == n * Reading(s.cells, k, c)
  }

  lemma OneMoreListing(cpus: nat, s: System, t: System, k: FlowKey, c: nat, n: nat)
    requires forall x :: x in t.cells ==> |t.cells[x]| == cpus
    requires k in s.cells && HasListed(s, t, k, c, n)
    ensures HasListed(s, Step(cpus, t, Read(k)), k, c, n + 1)
  {
    AfterRead(cpus, t, k, c);
    OneTimesMore(n, Reading(s.cells, k, c));
  }

  lemma {:induction false} AfterListings(cpus: nat, events: seq<Event>, k: FlowKey, n: nat, c: nat)
    requires OnCpus(cpus, events) && k in Exec(cpus, events).cells && !Listed(Exec(cpus, events).pending, k)
    ensures OnCpus(cpus, Listings(events, k, n))
    ensures HasListed(Exec(cpus, events), Exec(cpus, Listings(events, k, n)), k, c, n)
    decreases n
  {
    if n == 0 {
      NothingToSum(Exec(cpus, events).pending, k);
    } else {
      var less := Listings(events, k, n - 1);
      AfterListings(cpus, events, k, n - 1, c);
      ExecMore(cpus, less, Read(k));
      OneMoreListing(cpus, Exec(cpus, events), Exec(cpus, less), k, c, n - 1);
    }
  }

  lemma {:induction false} ListingsSeeNothing(cpus: nat, events: seq<Event>, k: FlowKey, n: nat, c: nat)
    requires OnCpus(cpus, events) && HasBeenRead(cpus, events, k)
    ensures var all := Listings(events, k, n);
            && OnCpus(cpus, all) && HasBeenRead(cpus, all, k)
            && SeenSince(cpus, all, k, c) == SeenSince(cpus, events, k, c)
    decreases n
  {
    if n > 0 {
      ListingsSeeNothing(cpus, events, k, n - 1, c);
      SeenMore(cpus, Listings(events, k, n - 1), Read(k), k, c);
    }
  }

  /** The dump lists the flow `n` times, and is complete. */
  function ListedTimes(events: seq<Event>, k: FlowKey, n: nat): seq<Event> {
    Listings(events, k, n) + [EndDump]
  }

  lemma ListedTimesSeeNothing(cpus: nat, events: seq<Event>, k: FlowKey, n: nat, c: nat)
    requires OnCpus(cpus, events) && HasBeenRead(cpus, events, k)
    ensures var all := ListedTimes(events, k, n);
            && OnCpus(cpus, all) && HasBeenRead(cpus, all, k)
            && SeenSince(cpus, all, k, c) == SeenSince(cpus, events, k, c)
  {
    ListingsSeeNothing(cpus, events, k, n, c);
    SeenMore(cpus, Listings(events, k, n), EndDump, k, c);
  }

  /** The state `t` comes of `s` when a dump sums the flow's listings to `sum`. */
  ghost predicate Checkpointed(s: System, t: System, k: FlowKey, c: nat, sum: int) {
    && t.cells == s.cells && k in t.previous && Baseline(t, k, c) == sum && !Listed(t.pending, k)
    && (k in s.previous ==> Total(t, k, c) == Total(s, k, c) + Pos(sum - Baseline(s, k, c)))
  }

  lemma ListedIsCheckpointed(cpus: nat, s: System, t: System, k: FlowKey, c: nat, n: nat)
    requires forall x :: x in t.cells ==> |t.cells[x]| == cpus
    requires HasListed(s, t, k, c, n) && n > 0
    ensures Checkpointed(s, Step(cpus, t, EndDump), k, c, n * Reading(s.cells, k, c))
  {
    EndDumpTotals(cpus, t, k, c);
  }

  lemma AfterListedTimes(cpus: nat, events: seq<Event>, k: FlowKey, n: nat, c: nat)
    requires OnCpus(cpus, events) && n > 0 && k in Exec(cpus, events).cells && !Listed(Exec(cpus, events).pending, k)
    ensures OnCpus(cpus, ListedTimes(events, k, n))
    ensures var s, t := Exec(cpus, events), Exec(cpus, ListedTimes(events, k, n));
            Checkpointed(s, t, k, c, n * Reading(s.cells, k, c))
  {
    AfterListings(cpus, events, k, n, c);
    var listed := Listings(events, k, n);
    ListedIsCheckpointed(cpus, Exec(cpus, events), Exec(cpus, listed), k, c, n);
    ExecMore(cpus, listed, EndDump);
  }

  /** The condition is needed: when a dump lists a surviving flow `n` times, all that its
      entry holds is reported once more for each listing after the first, and the total
      exceeds the traffic by exactly that. */
  lemma ListedAgainIsReportedAgain(cpus: nat, events: seq<Event>, k: FlowKey, n: nat, c: nat)
    requires OnCpus(cpus, events) && HasBeenRead(cpus, events, k) && Survives(cpus, events, k) && n > 0
    requires k in Exec(cpus, events).previous && !Listed(Exec(cpus, events).pending, k)
    ensures var all := ListedTimes(events, k, n);
            && OnCpus(cpus, all)
            && Emitted(Exec(cpus, all).emitted, k, c) ==
               SeenSince(cpus, all, k, c) + (n - 1) * Reading(Exec(cpus, events).cells, k, c)
  {
    SurvivorIsConserved(cpus, events, k, c);
    AlwaysCovered(cpus, events, k, c);
    ListedTimesSeeNothing(cpus, events, k, n, c);
    AfterListedTimes(cpus, events, k, n, c);
    ExcessOf(Exec(cpus, events), Exec(cpus, ListedTimes(events, k, n)), k, c, SeenSince(cpus, events, k, c), n);
  }

  lemma ExcessOf(s: System, t: System, k: FlowKey, c: nat, seen: int, n: nat)
    requires Conserved(s, k, c, seen) && k in s.previous && Reading(s.cells, k, c) >= 0 && n > 0
    requires Checkpointed(s, t, k, c, n * Reading(s.cells, k, c))
    ensures Total(t, k, c) == seen + (n - 1) * Reading(s.cells, k, c)
  {
    OneTimesMore(n - 1, Reading(s.cells, k, c));
    assert (n - 1) * Reading(s.cells, k, c) >= 0;
  }

  /** What was emitted exceeds the traffic by just as much. */
  ghost predicate Exceeds(s: System, k: FlowKey, c: nat, seen: int, excess: int) {
    Emitted(s.emitted, k, c) == seen + excess
  }

  /** Anything but the end of the entry, of the dump or of the collector, and a listing of
      the flow. */
  predicate Idle(e: Event, k: FlowKey) {
    e != Evict(k) && e != Read(k) && !e.Reload? && !e.Restart? && !e.EndDump?
  }

  lemma IdleStep(cpus: nat, s: System, e: Event, k: FlowKey, c: nat)
    requires (e.Hook? ==> e.run.cpu < cpus) && forall x :: x in s.cells ==> |s.cells[x]| == cpus
    requires Idle(e, k) && k in s.cells && !Listed(s.pending, k)
    ensures var t := Step(cpus, s, e);
            && k in t.cells && Reading(t.cells, k, c) == Reading(s.cells, k, c) + Traffic(e, k, c)
            && t.previous == s.previous && t.emitted == s.emitted && !Listed(t.pending, k)
  {
    match e
    case Hook(run) => HookReading(cpus, s.cells, run, k, c);
    case Read(key) =>
      if key in s.cells {
        ReadPending(s.pending, key, s.cells[key], k, c);
      }
    case _ =>
  }

  /** Meanwhile the entry grows by the traffic. */
  lemma {:induction false} Meanwhile(cpus: nat, events: seq<Event>, more: seq<Event>, k: FlowKey, c: nat)
    requires OnCpus(cpus, events) && OnCpus(cpus, more) && HasBeenRead(cpus, events, k)
    requires k in Exec(cpus, events).cells && !Listed(Exec(cpus, events).pending, k)
    requires forall i :: 0 <= i < |more| ==> Idle(more[i], k)
    ensures OnCpus(cpus, events + more) && HasBeenRead(cpus, events + more, k)
    ensures var s, t := Exec(cpus, events), Exec(cpus, events + more);
            && k in t.cells && t.previous == s.previous && t.emitted == s.emitted && !Listed(t.pending, k)
            && Reading(t.cells, k, c) - Reading(s.cells, k, c) ==
               SeenSince(cpus, events + more, k, c) - SeenSince(cpus, events, k, c)
  {
    if more == [] {
      assert events + more == events;
    } else {
      var before, e := more[..|more| - 1], more[|more| - 1];
      assert events + more == events + before + [e];
      Meanwhile(cpus, events, before, k, c);
      IdleStep(cpus, Exec(cpus, events + before), e, k, c);
      ExecMore(cpus, events + before, e);
      SeenMore(cpus, events + before, e, k, c);
    }
  }

  /** What is left of an excess when a dump lists an entry of `now` over a baseline `j` times:
      what its repeats add, or what the baseline is still too high by. */
  function Remaining(j: nat, now: int, baseline: int): int {
    Max((j - 1) * now, baseline - now)
  }

  /** The excess does not last: the baseline is too high by what was reported again, and
      swallows later growth. After `n` listings, whatever happens meanwhile to a surviving
      entry, and a next dump that lists it `j` times, the excess is what the repeats of
      that dump add, or what `n` times the earlier reading has over the later one,
      whichever is more. After a single listing it is gone once the entry has grown
      `n`-fold. */
  lemma ExcessIsSwallowed(cpus: nat, events: seq<Event>, k: FlowKey, n: nat, more: seq<Event>, j: nat, c: nat)
    requires OnCpus(cpus, events) && HasBeenRead(cpus, events, k) && Survives(cpus, events, k) && n > 0 && j > 0
    requires k in Exec(cpus, events).previous && !Listed(Exec(cpus, events).pending, k)
    requires OnCpus(cpus, more) && forall i :: 0 <= i < |more| ==> Idle(more[i], k)
    ensures var onward := ListedTimes(events, k, n) + more;
            var all := ListedTimes(onward, k, j);
            && OnCpus(cpus, onward) && OnCpus(cpus, all)
            && var held, now := Reading(Exec(cpus, events).cells, k, c), Reading(Exec(cpus, onward).cells, k, c);
            Exceeds(Exec(cpus, all), k, c, SeenSince(cpus, all, k, c), Remaining(j, now, n * held))
  {
    SurvivorIsConserved(cpus, events, k, c);
    AlwaysCovered(cpus, events, k, c);
    LeavesExcess(cpus, events, k, n, c);
    StaysExcessive(cpus, ListedTimes(events, k, n), more, k, c);
    ListingSwallows(cpus, ListedTimes(events, k, n) + more, k, j, c);
  }

  /** The baseline is above the entry by as much as was reported beyond the traffic. */
  ghost predicate Excessive(s: System, k: FlowKey, c: nat, seen: int) {
    && k in s.cells && k in s.previous && !Listed(s.pending, k)
    && Total(s, k, c) == seen + Baseline(s, k, c) - Reading(s.cells, k, c)
  }

  lemma CheckpointedIsExcessive(s: System, t: System, k: FlowKey, c: nat, seen: int, n: nat)
    requires Conserved(s, k, c, seen) && k in s.previous && Reading(s.cells, k, c) >= 0 && n > 0
    requires Checkpointed(s, t, k, c, n * Reading(s.cells, k, c))
    ensures Excessive(t, k, c, seen)
  {
    OneTimesMore(n - 1, Reading(s.cells, k, c));
    assert (n - 1) * Reading(s.cells, k, c) >= 0;
  }

  lemma LeavesExcess(cpus: nat, events: seq<Event>, k: FlowKey, n: nat, c: nat)
    requires OnCpus(cpus, events) && HasBeenRead(cpus, events, k) && n > 0
    requires k in Exec(cpus, events).previous && !Listed(Exec(cpus, events).pending, k)
    requires Conserved(Exec(cpus, events), k, c, SeenSince(cpus, events, k, c)) &&
             Reading(Exec(cpus, events).cells, k, c) >= 0
    ensures var once := ListedTimes(events, k, n);
            && OnCpus(cpus, once) && HasBeenRead(cpus, once, k)
            && Excessive(Exec(cpus, once), k, c, SeenSince(cpus, once, k, c))
            && Baseline(Exec(cpus, once), k, c) == n * Reading(Exec(cpus, events).cells, k, c)
  {
    AfterListedTimes(cpus, events, k, n, c);
    ListedTimesSeeNothing(cpus, events, k, n, c);
    CheckpointedIsExcessive(
      Exec(cpus, events), Exec(cpus, ListedTimes(events, k, n)), k, c, SeenSince(cpus, events, k, c), n);
  }

  /** Meanwhile the excess stays as it is. */
  lemma StaysExcessive(cpus: nat, events: seq<Event>, more: seq<Event>, k: FlowKey, c: nat)
    requires OnCpus(cpus, events) && OnCpus(cpus, more) && HasBeenRead(cpus, events, k)
    requires forall i :: 0 <= i < |more| ==> Idle(more[i], k)
    requires Excessive(Exec(cpus, events), k, c, SeenSince(cpus, events, k, c))
    ensures OnCpus(cpus, events + more) && HasBeenRead(cpus, events + more, k)
    ensures Excessive(Exec(cpus, events + more), k, c, SeenSince(cpus, events + more, k, c))
    ensures Baseline(Exec(cpus, events + more), k, c) == Baseline(Exec(cpus, events), k, c)
  {
    Meanwhile(cpus, events, more, k, c);
  }

  lemma ExcessAfter(s: System, t: System, k: FlowKey, c: nat, seen: int, j: nat)
    requires Excessive(s, k, c, seen) && j > 0
    requires Checkpointed(s, t, k, c, j * Reading(s.cells, k, c))
    ensures Exceeds(t, k, c, seen, Remaining(j, Reading(s.cells, k, c), Baseline(s, k, c)))
  {
    OneTimesMore(j - 1, Reading(s.cells, k, c));
  }

  /** The next dump swallows it as far as the entry has grown. */
  lemma ListingSwallows(cpus: nat, events: seq<Event>, k: FlowKey, j: nat, c: nat)
    requires OnCpus(cpus, events) && HasBeenRead(cpus, events, k) && j > 0
    requires Excessive(Exec(cpus, events), k, c, SeenSince(cpus, events, k, c))
    ensures var all := ListedTimes(events, k, j);
            && OnCpus(cpus, all)
            && var s := Exec(cpus, events);
            Exceeds(Exec(cpus, all), k, c, SeenSince(cpus, all, k, c),
              Remaining(j, Reading(s.cells, k, c), Baseline(s, k, c)))
  {
    AfterListedTimes(cpus, events, k, j, c);
    ListedTimesSeeNothing(cpus, events, k, j, c);
    ExcessAfter(Exec(cpus, events), Exec(cpus, ListedTimes(events, k, j)), k, c, SeenSince(cpus, events, k, c), j);
  }

  // ------------------------------------------------------------------ valid keys

  /** Only the hooks of one collector write to its map. */
  ghost predicate HooksOf(proto: nat, events: seq<Event>) {
    forall i :: 0 <= i < |events| && events[i].Hook? ==> (events[i].run.call.UdpRecv? <==> proto == IPPROTO_UDP)
  }

  /** No dump of a run ever holds a key that the collector's validation rejects. */
  lemma {:induction false} KeysPassValidation(cpus: nat, proto: nat, events: seq<Event>)
    requires OnCpus(cpus, events) && HooksOf(proto, events)
    requires proto == IPPROTO_TCP || proto == IPPROTO_UDP
    ensures forall k :: k in Exec(cpus, events).cells ==> ValidKey(proto, k)
    ensures forall i :: 0 <= i < |Exec(cpus, events).pending| ==> ValidKey(proto, Exec(cpus, events).pending[i].key)
  {
    if events != [] {
      KeysPassValidation(cpus, proto, events[..|events| - 1]);
    }
  }
}
