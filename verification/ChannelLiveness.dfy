/** The contract that consumers of channel rows rely on: a row shows packets exactly when
    it shows bytes. When it holds, and exactly when an eviction can break it. */
module ChannelLiveness {
  import opened Wrappers
  import opened Checkpoint
  import opened CheckpointRuns
  import opened CheckpointSplits
  import opened PerCpuValue
  import opened ChannelHooks
  import opened ChannelRuns
  import opened Protocols

  /** The row's compatibility fields `bytes` and `packets`. */
  function RowBytes(delta: Counters): int {
    At(delta, 0) + At(delta, 1)
  }

  function RowPackets(delta: Counters): int {
    At(delta, 3) + At(delta, 2)
  }

  /** The contract of one row. */
  predicate LiveRow(delta: Counters) {
    && At(delta, 2) <= At(delta, 0) && At(delta, 3) <= At(delta, 1)
    && RowPackets(delta) <= RowBytes(delta)
    && (RowPackets(delta) == 0 <==> RowBytes(delta) == 0)
  }

  /** Calls and bytes of one direction agree on whether anything moved. */
  predicate Lively(bytes: int, calls: int) {
    0 <= calls <= bytes && (calls == 0 ==> bytes == 0)
  }

  /** From `a` to `b`, calls and bytes keep step in both directions. */
  predicate GrewLively(a: Counters, b: Counters) {
    && Lively(At(b, 0) - At(a, 0), At(b, 2) - At(a, 2))
    && Lively(At(b, 1) - At(a, 1), At(b, 3) - At(a, 3))
    && At(b, 4) >= At(a, 4)
  }

  lemma LivelyRow(a: Counters, b: Counters)
    requires GrewLively(a, b)
    ensures LiveRow(Growth(a, b))
  {
    forall c: nat | c < 5 ensures At(Growth(a, b), c) == At(b, c) - At(a, c) {
      GrowthAt(a, b, c);
    }
  }

  // ------------------------------------------------------------ surviving entries

  function ExecFrom(cpus: nat, s: System, events: seq<Event>): (t: System)
    requires OnCpus(cpus, events)
    requires forall k :: k in s.cells ==> |s.cells[k]| == cpus
    ensures forall k :: k in t.cells ==> |t.cells[k]| == cpus
  {
    if events == [] then s
    else Step(cpus, ExecFrom(cpus, s, events[..|events| - 1]), events[|events| - 1])
  }

  /** No event of the interval removes the flow's entry. */
  ghost predicate Keeps(events: seq<Event>, k: FlowKey) {
    forall i :: 0 <= i < |events| ==> events[i] != Evict(k) && !events[i].Reload?
  }

  function EntryOf(s: System, k: FlowKey): Counters
    requires k in s.cells
  {
    CountersOf(Fold(s.cells[k]))
  }

  lemma CallsMoveBytes(e: Event, k: FlowKey)
    ensures Lively(Traffic(e, k, 0), Traffic(e, k, 2)) && Lively(Traffic(e, k, 1), Traffic(e, k, 3))
    ensures Traffic(e, k, 4) >= 0
  {
  }

  /** One step that does not remove an entry keeps its calls and bytes in step. */
  lemma EntryGrowsLively(cpus: nat, s: System, e: Event, k: FlowKey)
    requires (e.Hook? ==> e.run.cpu < cpus) && forall x :: x in s.cells ==> |s.cells[x]| == cpus
    requires k in s.cells && e != Evict(k) && !e.Reload?
    ensures k in Step(cpus, s, e).cells && GrewLively(EntryOf(s, k), EntryOf(Step(cpus, s, e), k))
  {
    if e.Hook? {
      forall c: nat | c < 5 ensures
        Reading(HookStep(cpus, s.cells, e.run), k, c) == Reading(s.cells, k, c) + Traffic(e, k, c)
      {
        HookReading(cpus, s.cells, e.run, k, c);
      }
      HookReading(cpus, s.cells, e.run, k, 0);
      CallsMoveBytes(e, k);
    }
  }

  /** Over any interval in which the entry stays in the map, calls and bytes keep step in
      both directions. */
  lemma {:induction false} SurvivingInterval(cpus: nat, s: System, events: seq<Event>, k: FlowKey)
    requires OnCpus(cpus, events) && forall x :: x in s.cells ==> |s.cells[x]| == cpus
    requires k in s.cells && Keeps(events, k)
    ensures k in ExecFrom(cpus, s, events).cells
    ensures GrewLively(EntryOf(s, k), EntryOf(ExecFrom(cpus, s, events), k))
  {
    if events != [] {
      var before, e := events[..|events| - 1], events[|events| - 1];
      SurvivingInterval(cpus, s, before, k);
      EntryGrowsLively(cpus, ExecFrom(cpus, s, before), e, k);
    }
  }

  /** Whether the entry of a flow stayed in the map, and each dump read it once: since the
      reading that is the baseline (`base`), since the one the dump in progress took
      (`pending`), and between the two (`row`). */
  datatype History = History(base: bool, row: bool, pending: bool)

  function Kept(cpus: nat, events: seq<Event>, k: FlowKey): History
    requires OnCpus(cpus, events)
  {
    if events == [] then History(false, false, false)
    else
      var before := events[..|events| - 1];
      KeptAfter(Exec(cpus, before), Kept(cpus, before, k), events[|events| - 1], k)
  }

  function KeptAfter(s: System, h: History, e: Event, k: FlowKey): History {
    match e
    case Hook(_) => h
    case Evict(key) => if key == k then History(false, h.row, false) else h
    case Reload => History(false, h.row, false)
    case Read(key) =>
      if key != k || k !in s.cells then h
      else if Listed(s.pending, k) then History(h.base, false, false)
      else History(h.base, h.base, true)
    case EndDump => History(Listed(s.pending, k) && h.pending, false, false)
    case Restart => History(false, false, false)
  }

  ghost predicate HistoryHolds(s: System, h: History, k: FlowKey) {
    && (h.base ==> k in s.previous && k in s.cells && GrewLively(s.previous[k], EntryOf(s, k)))
    && (h.row ==> k in s.previous && Listed(s.pending, k) && GrewLively(s.previous[k], SumFor(s.pending, k)))
    && (h.pending ==> Listed(s.pending, k) && k in s.cells && GrewLively(SumFor(s.pending, k), EntryOf(s, k)))
  }

  lemma ReadKeeps(pending: seq<FlowEntry>, key: FlowKey, values: seq<FlowValue>, k: FlowKey)
    ensures var after := pending + [ParsedEntry(key, values)];
            && (Listed(after, k) <==> Listed(pending, k) || key == k)
            && (forall c: nat :: At(SumFor(after, k), c) ==
                  At(SumFor(pending, k), c) + if k == key then At(CountersOf(Fold(values)), c) else 0)
            && (!Listed(pending, k) ==> forall c: nat :: At(SumFor(pending, k), c) == 0)
  {
    forall c: nat
      ensures At(SumFor(pending + [ParsedEntry(key, values)], k), c) ==
              At(SumFor(pending, k), c) + if k == key then At(CountersOf(Fold(values)), c) else 0
      ensures !Listed(pending, k) ==> At(SumFor(pending, k), c) == 0
    {
      ReadPending(pending, key, values, k, c);
    }
    ReadPending(pending, key, values, k, 0);
  }

  lemma HistoryReads(cpus: nat, s: System, h: History, key: FlowKey, k: FlowKey)
    requires forall x :: x in s.cells ==> |s.cells[x]| == cpus
    requires HistoryHolds(s, h, k)
    ensures HistoryHolds(Step(cpus, s, Read(key)), KeptAfter(s, h, Read(key), k), k)
  {
    if key in s.cells {
      ReadKeeps(s.pending, key, s.cells[key], k);
    }
  }

  lemma HistoryStep(cpus: nat, s: System, h: History, e: Event, k: FlowKey)
    requires (e.Hook? ==> e.run.cpu < cpus) && forall x :: x in s.cells ==> |s.cells[x]| == cpus
    requires HistoryHolds(s, h, k)
    ensures HistoryHolds(Step(cpus, s, e), KeptAfter(s, h, e, k), k)
  {
    match e
    case Hook(_) =>
      if k in s.cells {
        EntryGrowsLively(cpus, s, e, k);
      }
    case Read(key) => HistoryReads(cpus, s, h, key, k);
    case EndDump => BaselineIsTheSum(s.pending, k);
    case _ =>
  }

  lemma {:induction false} HistoryAlwaysHolds(cpus: nat, events: seq<Event>, k: FlowKey)
    requires OnCpus(cpus, events)
    ensures HistoryHolds(Exec(cpus, events), Kept(cpus, events, k), k)
  {
    if events != [] {
      var before := events[..|events| - 1];
      HistoryAlwaysHolds(cpus, before, k);
      HistoryStep(cpus, Exec(cpus, before), Kept(cpus, before, k), events[|events| - 1], k);
    }
  }

  lemma RowOfCheckpoint(s: System, r: Row<FlowKey, FlowValue>)
    requires r in Rows(s.previous, s.pending)
    ensures r.key in s.previous && Listed(s.pending, r.key)
    ensures r.delta == Growth(s.previous[r.key], SumFor(s.pending, r.key))
  {
    RowsAreExact(s.previous, s.pending);
    assert ExactRow(s.previous, s.pending, r);
  }

  /** Whenever a dump is complete: a row of a flow whose entry stayed in the map between
      its two readings is live. */
  lemma RowIsLive(cpus: nat, events: seq<Event>, r: Row<FlowKey, FlowValue>)
    requires OnCpus(cpus, events) && Kept(cpus, events, r.key).row
    requires r in Rows(Exec(cpus, events).previous, Exec(cpus, events).pending)
    ensures LiveRow(r.delta)
  {
    var s := Exec(cpus, events);
    HistoryAlwaysHolds(cpus, events, r.key);
    RowOfCheckpoint(s, r);
    LivelyRow(s.previous[r.key], SumFor(s.pending, r.key));
  }

  /** Whenever a run may emit a row of the flow, its entry stayed in the map between the
      two readings. */
  predicate Unbroken(cpus: nat, events: seq<Event>, k: FlowKey)
    requires OnCpus(cpus, events)
  {
    if events == [] then true
    else
      var before, e := events[..|events| - 1], events[|events| - 1];
      var s := Exec(cpus, before);
      Unbroken(cpus, before, k) && (e.EndDump? && k in s.previous && Listed(s.pending, k) ==> Kept(cpus, before, k).row)
  }

  /** Then every row that the run emits of the flow is live. */
  lemma {:induction false} EmittedRowsAreLive(cpus: nat, events: seq<Event>, r: Row<FlowKey, FlowValue>)
    requires OnCpus(cpus, events) && Unbroken(cpus, events, r.key)
    requires r in Exec(cpus, events).emitted
    ensures LiveRow(r.delta)
  {
    var before, e := events[..|events| - 1], events[|events| - 1];
    var s := Exec(cpus, before);
    if r in s.emitted {
      EmittedRowsAreLive(cpus, before, r);
    } else {
      RowOfCheckpoint(s, r);
      RowIsLive(cpus, before, r);
    }
  }

  /** It suffices that nothing removes the entry and no dump lists it twice. */
  lemma {:induction false} KeptThroughout(cpus: nat, events: seq<Event>, k: FlowKey)
    requires OnCpus(cpus, events) && Keeps(events, k) && OncePerDump(cpus, events, k)
    ensures Unbroken(cpus, events, k)
    ensures var s, h := Exec(cpus, events), Kept(cpus, events, k);
            && (k in s.previous ==> h.base)
            && (Listed(s.pending, k) ==> h.pending && (k in s.previous ==> h.row))
  {
    if events != [] {
      var before, e := events[..|events| - 1], events[|events| - 1];
      var s := Exec(cpus, before);
      KeptThroughout(cpus, before, k);
      if e.Read? && e.key in s.cells {
        ReadKeeps(s.pending, e.key, s.cells[e.key], k);
      } else if e.EndDump? {
        BaselineIsTheSum(s.pending, k);
      }
    }
  }

  // ------------------------------------------------------- what an eviction can break

  /** The keys that some hook writes. */
  predicate Written(k: FlowKey) {
    && k.socketCookie > 0 && k.srcPort > 0 && k.family == AF_INET
    && (k.ipProto == IPPROTO_UDP || (k.ipProto == IPPROTO_TCP && k.dstPort > 0 && k.dstIp4 > 0))
  }

  /** No call of the event moves more than `m` bytes. */
  predicate CallUpTo(m: nat, e: Event) {
    e.Hook? ==> At(Amounts(e.run.call), 0) <= m && At(Amounts(e.run.call), 1) <= m
  }

  ghost predicate CallsUpTo(m: nat, events: seq<Event>) {
    forall i :: 0 <= i < |events| ==> CallUpTo(m, events[i])
  }

  /** The bytes that as many calls could still have moved, in one direction. */
  function RoomIn(m: nat, bytes: int, calls: int): int {
    m * calls - bytes
  }

  lemma RoomAdds(m: nat, bytes: int, calls: int, bytes': int, calls': int)
    ensures RoomIn(m, bytes + bytes', calls + calls') == RoomIn(m, bytes, calls) + RoomIn(m, bytes', calls')
  {
  }

  /** What an entry can hold when no call moves more than `m` bytes: calls and bytes in
      step, and nothing sent on UDP, whose hook only sees receiving. */
  predicate Plausible(m: nat, k: FlowKey, v: Counters) {
    && GrewLively([], v) && (k.ipProto == IPPROTO_UDP ==> At(v, 0) == 0 && At(v, 2) == 0)
    && RoomIn(m, At(v, 0), At(v, 2)) >= 0 && RoomIn(m, At(v, 1), At(v, 3)) >= 0
  }

  lemma PlausibleSum(m: nat, k: FlowKey, a: Counters, b: Counters, sum: Counters)
    requires Plausible(m, k, a) && Plausible(m, k, b) && forall c: nat | c < 5 :: At(sum, c) == At(a, c) + At(b, c)
    ensures Plausible(m, k, sum)
  {
    RoomAdds(m, At(a, 0), At(a, 2), At(b, 0), At(b, 2));
    RoomAdds(m, At(a, 1), At(a, 3), At(b, 1), At(b, 3));
  }

  lemma PlausibleReads(m: nat, k: FlowKey, v: Counters, same: Counters)
    requires Plausible(m, k, v) && forall c: nat | c < 5 :: At(same, c) == At(v, c)
    ensures Plausible(m, k, same)
  {
  }

  ghost predicate AllPlausible(m: nat, s: System, k: FlowKey) {
    && (k in s.cells ==> Written(k) && Plausible(m, k, EntryOf(s, k)))
    && Plausible(m, k, SumFor(s.pending, k)) && (Listed(s.pending, k) ==> Written(k))
    && (k in s.previous ==> Written(k) && Plausible(m, k, s.previous[k]))
  }

  /** What one hook brings to the flow. */
  function Brought(run: Run, k: FlowKey): Counters {
    seq(5, c requires 0 <= c => Traffic(Hook(run), k, c))
  }

  lemma BroughtIsPlausible(m: nat, run: Run, k: FlowKey)
    requires CallUpTo(m, Hook(run))
    ensures Plausible(m, k, Brought(run, k))
  {
    CallsMoveBytes(Hook(run), k);
    var v := Brought(run, k);
    assert (v[0] == 0 && v[2] == 0) || (v[2] == 1 && v[0] <= m);
    assert (v[1] == 0 && v[3] == 0) || (v[3] == 1 && v[1] <= m);
  }

  lemma HookIsPlausible(cpus: nat, m: nat, s: System, run: Run, k: FlowKey)
    requires run.cpu < cpus && CallUpTo(m, Hook(run)) && forall x :: x in s.cells ==> |s.cells[x]| == cpus
    requires k in s.cells ==> Written(k) && Plausible(m, k, EntryOf(s, k))
    ensures var after := HookStep(cpus, s.cells, run);
            k in after ==> Written(k) && Plausible(m, k, CountersOf(Fold(after[k])))
  {
    var after := HookStep(cpus, s.cells, run);
    BroughtIsPlausible(m, run, k);
    forall c: nat | c < 5
      ensures k in after ==> Reading(after, k, c) == Reading(s.cells, k, c) + Brought(run, k)[c]
    {
      if k in s.cells {
        HookOnPresentFlow(cpus, s.cells, run, k, c);
      } else {
        HookOnAbsentFlow(cpus, s.cells, run, k, c);
      }
    }
    if k in s.cells {
      HookOnPresentFlow(cpus, s.cells, run, k, 0);
      PlausibleSum(m, k, EntryOf(s, k), Brought(run, k), CountersOf(Fold(after[k])));
    } else if k in after {
      PlausibleReads(m, k, Brought(run, k), CountersOf(Fold(after[k])));
    }
  }

  lemma ReadIsPlausible(cpus: nat, m: nat, s: System, key: FlowKey, k: FlowKey)
    requires AllPlausible(m, s, k) && forall x :: x in s.cells ==> |s.cells[x]| == cpus
    ensures AllPlausible(m, Step(cpus, s, Read(key)), k)
  {
    if key in s.cells {
      var t := Step(cpus, s, Read(key));
      ReadKeeps(s.pending, key, s.cells[key], k);
      if key == k {
        PlausibleSum(m, k, SumFor(s.pending, k), EntryOf(s, k), SumFor(t.pending, k));
      } else {
        PlausibleReads(m, k, SumFor(s.pending, k), SumFor(t.pending, k));
      }
    }
  }

  lemma PlausibleStep(cpus: nat, m: nat, s: System, e: Event, k: FlowKey)
    requires (e.Hook? ==> e.run.cpu < cpus) && forall x :: x in s.cells ==> |s.cells[x]| == cpus
    requires AllPlausible(m, s, k) && CallUpTo(m, e)
    ensures AllPlausible(m, Step(cpus, s, e), k)
  {
    match e
    case Hook(run) => HookIsPlausible(cpus, m, s, run, k);
    case Read(key) => ReadIsPlausible(cpus, m, s, key, k);
    case EndDump => BaselineIsTheSum(s.pending, k);
    case _ =>
  }

  lemma {:induction false} AlwaysPlausible(cpus: nat, m: nat, events: seq<Event>, k: FlowKey)
    requires OnCpus(cpus, events) && CallsUpTo(m, events)
    ensures AllPlausible(m, Exec(cpus, events), k)
  {
    if events != [] {
      AlwaysPlausible(cpus, m, events[..|events| - 1], k);
      PlausibleStep(cpus, m, Exec(cpus, events[..|events| - 1]), events[|events| - 1], k);
    }
  }

  predicate NoEndDump(events: seq<Event>) {
    forall i :: 0 <= i < |events| ==> !events[i].EndDump?
  }

  /** Up to the end of the next dump the baseline is the one there is now, or none. */
  lemma {:induction false} UpToNextDump(cpus: nat, m: nat, s: System, more: seq<Event>, k: FlowKey)
    requires OnCpus(cpus, more) && NoEndDump(more) && CallsUpTo(m, more)
    requires AllPlausible(m, s, k) && forall x :: x in s.cells ==> |s.cells[x]| == cpus
    ensures var t := ExecFrom(cpus, s, more);
            AllPlausible(m, t, k) && (k in t.previous ==> k in s.previous && t.previous[k] == s.previous[k])
  {
    if more != [] {
      var before := more[..|more| - 1];
      UpToNextDump(cpus, m, s, before, k);
      PlausibleStep(cpus, m, ExecFrom(cpus, s, before), more[|more| - 1], k);
    }
  }

  /** After the events `more`, which complete no dump and in which no call moves more than
      `m` bytes, a completed dump would make the collector emit a row of the flow with
      these deltas. */
  ghost predicate EmitsNext(cpus: nat, m: nat, s: System, more: seq<Event>, k: FlowKey, delta: Counters)
    requires forall x :: x in s.cells ==> |s.cells[x]| == cpus
  {
    OnCpus(cpus, more) && NoEndDump(more) && CallsUpTo(m, more) &&
    var t := ExecFrom(cpus, s, more);
    exists r :: r in Rows(t.previous, t.pending) && r.key == k && r.delta == delta
  }

  predicate BytesWithoutPackets(delta: Counters) {
    RowBytes(delta) > 0 && RowPackets(delta) == 0
  }

  predicate PacketsWithoutBytes(delta: Counters) {
    RowPackets(delta) > 0 && RowBytes(delta) == 0
  }

  predicate HasCalls(baseline: Counters) {
    At(baseline, 2) > 0 || At(baseline, 3) > 0
  }

  /** In some direction a call moved more than one byte. */
  predicate HasLongCalls(baseline: Counters) {
    At(baseline, 0) > At(baseline, 2) || At(baseline, 1) > At(baseline, 3)
  }

  /** In some direction the calls, at most `m` bytes each, could have moved more. */
  predicate HasRoom(m: nat, baseline: Counters) {
    At(baseline, 0) < m * At(baseline, 2) || At(baseline, 1) < m * At(baseline, 3)
  }

  lemma MoreOf(m: nat, a: int, b: int)
    ensures a <= b ==> m * a <= m * b
  {
  }

  /** More bytes than the baseline's in no more calls: so the baseline left room. */
  lemma RoomIsUsed(m: nat, bytes: int, calls: int, bytes': int, calls': int)
    requires bytes < bytes' && calls' <= calls && RoomIn(m, bytes', calls') >= 0
    ensures bytes < m * calls
  {
    MoreOf(m, calls', calls);
  }

  lemma RowWithoutPacketsUsesRoom(m: nat, k: FlowKey, a: Counters, b: Counters, delta: Counters)
    requires Plausible(m, k, b) && forall c: nat | c < 5 :: At(delta, c) == Pos(At(b, c) - At(a, c))
    requires BytesWithoutPackets(delta)
    ensures HasRoom(m, a)
  {
    if At(b, 0) > At(a, 0) {
      RoomIsUsed(m, At(a, 0), At(a, 2), At(b, 0), At(b, 2));
    } else {
      RoomIsUsed(m, At(a, 1), At(a, 3), At(b, 1), At(b, 3));
    }
  }

  lemma LiveUnless(m: nat, k: FlowKey, a: Counters, b: Counters, delta: Counters)
    requires Plausible(m, k, a) && Plausible(m, k, b)
    requires forall c: nat | c < 5 :: At(delta, c) == Pos(At(b, c) - At(a, c))
    ensures !HasCalls(a) || m <= 1 ==> LiveRow(delta)
    ensures !HasLongCalls(a) ==> !PacketsWithoutBytes(delta)
  {
    if m <= 1 {
      assert At(a, 0) == At(a, 2) && At(a, 1) == At(a, 3) && At(b, 0) == At(b, 2) && At(b, 1) == At(b, 3);
    }
  }

  /** What a next row can look like, whatever happens to the entry until then. */
  lemma NextRow(cpus: nat, m: nat, s: System, more: seq<Event>, k: FlowKey, delta: Counters)
    requires forall x :: x in s.cells ==> |s.cells[x]| == cpus
    requires AllPlausible(m, s, k) && EmitsNext(cpus, m, s, more, k, delta)
    ensures k in s.previous
    ensures BytesWithoutPackets(delta) ==> HasRoom(m, s.previous[k])
    ensures !HasCalls(s.previous[k]) || m <= 1 ==> LiveRow(delta)
    ensures !HasLongCalls(s.previous[k]) ==> !PacketsWithoutBytes(delta)
  {
    var t := ExecFrom(cpus, s, more);
    UpToNextDump(cpus, m, s, more, k);
    var r :| r in Rows(t.previous, t.pending) && r.key == k && r.delta == delta;
    RowOfCheckpoint(t, r);
    var a, b := s.previous[k], SumFor(t.pending, k);
    forall c: nat | c < 5 ensures At(delta, c) == Pos(At(b, c) - At(a, c)) {
      GrowthAt(a, b, c);
    }
    LiveUnless(m, k, a, b, delta);
    if BytesWithoutPackets(delta) {
      RowWithoutPacketsUsesRoom(m, k, a, b, delta);
    }
  }

  // --------------------------------------------------------------- the breaking runs

  /** One call of the flow's socket, receiving or sending. */
  function Moves(k: FlowKey, received: bool, size: nat): Run {
    var call :=
      if !received then SendMsg(size) else if k.ipProto == IPPROTO_UDP then UdpRecv(0, size) else RecvMsg(size);
    var sock := Sock(AF_INET, k.socketCookie, k.srcIp4, k.dstIp4, k.srcPort, k.dstPort, 0);
    Run(0, Some(sock), k.cgroupId, call, 1, 1, true)
  }

  function Moved(received: bool, bytes: nat, calls: nat): Counters {
    if received then [0, bytes, 0, calls, 0] else [bytes, 0, calls, 0, 0]
  }

  predicate CanMove(k: FlowKey, received: bool) {
    Written(k) && (received || k.ipProto == IPPROTO_TCP)
  }

  /** The event is a call of the flow's socket that moves `size` bytes. */
  predicate IsMove(cpus: nat, e: Event, k: FlowKey, received: bool, size: nat) {
    && e.Hook? && e.run.cpu < cpus && e.run.admitted && Accounts(e.run.call)
    && FillKey(e.run.call, e.run.sk, e.run.cgroup) == Some(k) && Amounts(e.run.call) == Moved(received, size, 1)
  }

  lemma MovesAre(cpus: nat, k: FlowKey, received: bool, size: nat)
    requires cpus > 0 && CanMove(k, received) && size > 0
    ensures IsMove(cpus, Hook(Moves(k, received, size)), k, received, size)
  {
  }

  /** The entry is evicted and comes back with one call and `n` further ones like it. */
  function Recreate(k: FlowKey, e: Event, n: nat): seq<Event> {
    if n == 0 then [Evict(k)] + [e] else Recreate(k, e, n - 1) + [e]
  }

  lemma {:induction false} RecreateIsOneInterval(cpus: nat, m: nat, k: FlowKey, e: Event, n: nat)
    requires e.Hook? && e.run.cpu < cpus && CallUpTo(m, e)
    ensures OnCpus(cpus, Recreate(k, e, n)) && NoEndDump(Recreate(k, e, n)) && CallsUpTo(m, Recreate(k, e, n))
    decreases n
  {
    if n > 0 {
      RecreateIsOneInterval(cpus, m, k, e, n - 1);
    }
  }

  lemma ExecFromMore(cpus: nat, s: System, events: seq<Event>, e: Event)
    requires OnCpus(cpus, events) && (e.Hook? ==> e.run.cpu < cpus) && forall x :: x in s.cells ==> |s.cells[x]| == cpus
    ensures OnCpus(cpus, events + [e])
    ensures ExecFrom(cpus, s, events + [e]) == Step(cpus, ExecFrom(cpus, s, events), e)
  {
    var all := events + [e];
    assert all[..|all| - 1] == events;
  }

  /** `t` is like `s`, but for the map, in which the entry now reads `v`. */
  ghost predicate MovedOn(s: System, t: System, k: FlowKey, v: Counters) {
    && t.pending == s.pending && t.previous == s.previous
    && k in t.cells && forall c: nat :: At(EntryOf(t, k), c) == At(v, c)
  }

  lemma MoveReads(cpus: nat, s: System, e: Event, k: FlowKey, received: bool, size: nat, c: nat)
    requires IsMove(cpus, e, k, received, size) && forall x :: x in s.cells ==> |s.cells[x]| == cpus
    ensures k in Step(cpus, s, e).cells
    ensures At(EntryOf(Step(cpus, s, e), k), c) == Reading(s.cells, k, c) + At(Moved(received, size, 1), c)
  {
    if k in s.cells {
      HookOnPresentFlow(cpus, s.cells, e.run, k, c);
    } else {
      HookOnAbsentFlow(cpus, s.cells, e.run, k, c);
    }
  }

  lemma MoveCreates(cpus: nat, s: System, e: Event, k: FlowKey, received: bool, size: nat)
    requires IsMove(cpus, e, k, received, size) && forall x :: x in s.cells ==> |s.cells[x]| == cpus
    requires k !in s.cells
    ensures MovedOn(s, Step(cpus, s, e), k, Moved(received, size, 1))
  {
    MoveReads(cpus, s, e, k, received, size, 0);
    forall c: nat ensures At(EntryOf(Step(cpus, s, e), k), c) == At(Moved(received, size, 1), c) {
      MoveReads(cpus, s, e, k, received, size, c);
    }
  }

  lemma MoveAdds(
    cpus: nat, s: System, t: System, e: Event, k: FlowKey, received: bool, size: nat, bytes: nat, calls: nat)
    requires IsMove(cpus, e, k, received, size) && forall x :: x in t.cells ==> |t.cells[x]| == cpus
    requires MovedOn(s, t, k, Moved(received, bytes, calls))
    ensures MovedOn(s, Step(cpus, t, e), k, Moved(received, bytes + size, calls + 1))
  {
    MoveReads(cpus, t, e, k, received, size, 0);
    forall c: nat ensures At(EntryOf(Step(cpus, t, e), k), c) == At(Moved(received, bytes + size, calls + 1), c) {
      MoveReads(cpus, t, e, k, received, size, c);
      assert At(EntryOf(t, k), c) == At(Moved(received, bytes, calls), c);
    }
  }

  /** The state in which `Recreate` ends. */
  function After(cpus: nat, s: System, k: FlowKey, e: Event, n: nat): (t: System)
    requires e.Hook? && e.run.cpu < cpus
    requires forall x :: x in s.cells ==> |s.cells[x]| == cpus
    ensures forall x :: x in t.cells ==> |t.cells[x]| == cpus
  {
    if n == 0 then Step(cpus, Step(cpus, s, Evict(k)), e) else Step(cpus, After(cpus, s, k, e, n - 1), e)
  }

  lemma {:induction false} RecreateEndsAfter(cpus: nat, s: System, k: FlowKey, e: Event, n: nat)
    requires e.Hook? && e.run.cpu < cpus
    requires forall x :: x in s.cells ==> |s.cells[x]| == cpus
    ensures OnCpus(cpus, Recreate(k, e, n))
    ensures ExecFrom(cpus, s, Recreate(k, e, n)) == After(cpus, s, k, e, n)
    decreases n
  {
    if n == 0 {
      ExecFromMore(cpus, s, [], Evict(k));
      assert [] + [Evict(k)] == [Evict(k)];
      ExecFromMore(cpus, s, [Evict(k)], e);
    } else {
      RecreateEndsAfter(cpus, s, k, e, n - 1);
      ExecFromMore(cpus, s, Recreate(k, e, n - 1), e);
    }
  }

  /** What `n + 1` calls of `size` bytes move. */
  function AllMoved(received: bool, size: nat, n: nat): Counters {
    Moved(received, size * (n + 1), n + 1)
  }

  lemma MoveAddsToAll(cpus: nat, s: System, t: System, e: Event, k: FlowKey, received: bool, size: nat, n: nat)
    requires IsMove(cpus, e, k, received, size) && forall x :: x in t.cells ==> |t.cells[x]| == cpus
    requires MovedOn(s, t, k, AllMoved(received, size, n))
    ensures MovedOn(s, Step(cpus, t, e), k, AllMoved(received, size, n + 1))
  {
    MoveAdds(cpus, s, t, e, k, received, size, size * (n + 1), n + 1);
    assert size * (n + 1) + size == size * (n + 2);
  }

  lemma {:induction false} Recreated(cpus: nat, s: System, k: FlowKey, e: Event, received: bool, size: nat, n: nat)
    requires IsMove(cpus, e, k, received, size)
    requires forall x :: x in s.cells ==> |s.cells[x]| == cpus
    ensures MovedOn(s, After(cpus, s, k, e, n), k, AllMoved(received, size, n))
    decreases n
  {
    if n == 0 {
      MoveCreates(cpus, Step(cpus, s, Evict(k)), e, k, received, size);
    } else {
      Recreated(cpus, s, k, e, received, size, n - 1);
      MoveAddsToAll(cpus, s, After(cpus, s, k, e, n - 1), e, k, received, size, n - 1);
    }
  }

  /** The row of a flow that the next complete dump lists with these counters. */
  lemma ListedRow(s: System, k: FlowKey, c: nat)
    requires k in s.previous && Listed(s.pending, k)
    requires At(SumFor(s.pending, k), c) > At(s.previous[k], c)
    ensures exists r :: r in Rows(s.previous, s.pending) && r.key == k &&
                        r.delta == Growth(s.previous[k], SumFor(s.pending, k))
  {
    var a, b := s.previous[k], SumFor(s.pending, k);
    GrowthAt(a, b, c);
    assert Grew(a, b) by {
      assert c < |Growth(a, b)| && Growth(a, b)[c] > 0;
    }
    RowsAreExact(s.previous, s.pending);
    IdentitiesAreTheListed(s.pending);
    assert Row(k, Growth(a, b), FirstEntry(s.pending, k)) in Rows(s.previous, s.pending);
  }

  /** A dump in progress has read the entry as `v`, and the baseline is still that of `s`. */
  ghost predicate HasRead(s: System, u: System, k: FlowKey, v: Counters) {
    && u.previous == s.previous && Listed(u.pending, k)
    && forall c: nat :: At(SumFor(u.pending, k), c) == At(v, c)
  }

  lemma ReadsMoved(cpus: nat, s: System, t: System, k: FlowKey, v: Counters)
    requires forall x :: x in t.cells ==> |t.cells[x]| == cpus
    requires MovedOn(s, t, k, v) && !Listed(s.pending, k)
    ensures HasRead(s, Step(cpus, t, Read(k)), k, v)
  {
    ReadKeeps(t.pending, k, t.cells[k], k);
    forall c: nat ensures At(SumFor(Step(cpus, t, Read(k)).pending, k), c) == At(v, c) {
      assert At(EntryOf(t, k), c) == At(v, c);
    }
  }

  /** The eviction, the calls, and the dump that reads the entry. */
  function Comeback(k: FlowKey, received: bool, size: nat, n: nat): seq<Event> {
    Recreate(k, Hook(Moves(k, received, size)), n) + [Read(k)]
  }

  lemma ReadsAfter(cpus: nat, s: System, k: FlowKey, e: Event, received: bool, size: nat, n: nat)
    requires IsMove(cpus, e, k, received, size)
    requires !Listed(s.pending, k) && forall x :: x in s.cells ==> |s.cells[x]| == cpus
    ensures HasRead(s, Step(cpus, After(cpus, s, k, e, n), Read(k)), k, AllMoved(received, size, n))
  {
    Recreated(cpus, s, k, e, received, size, n);
    ReadsMoved(cpus, s, After(cpus, s, k, e, n), k, AllMoved(received, size, n));
  }

  lemma ComebackEnds(cpus: nat, m: nat, s: System, k: FlowKey, e: Event, n: nat)
    requires e.Hook? && e.run.cpu < cpus && CallUpTo(m, e)
    requires forall x :: x in s.cells ==> |s.cells[x]| == cpus
    ensures var more := Recreate(k, e, n) + [Read(k)];
            && OnCpus(cpus, more) && NoEndDump(more) && CallsUpTo(m, more)
            && ExecFrom(cpus, s, more) == Step(cpus, After(cpus, s, k, e, n), Read(k))
  {
    RecreateIsOneInterval(cpus, m, k, e, n);
    RecreateEndsAfter(cpus, s, k, e, n);
    ExecFromMore(cpus, s, Recreate(k, e, n), Read(k));
  }

  lemma ComesBack(cpus: nat, m: nat, s: System, k: FlowKey, received: bool, size: nat, n: nat)
    requires cpus > 0 && CanMove(k, received) && 0 < size <= m && forall x :: x in s.cells ==> |s.cells[x]| == cpus
    requires !Listed(s.pending, k)
    ensures var more := Comeback(k, received, size, n);
            && OnCpus(cpus, more) && NoEndDump(more) && CallsUpTo(m, more)
            && HasRead(s, ExecFrom(cpus, s, more), k, AllMoved(received, size, n))
  {
    var e := Hook(Moves(k, received, size));
    MovesAre(cpus, k, received, size);
    ReadsAfter(cpus, s, k, e, received, size, n);
    ComebackEnds(cpus, m, s, k, e, n);
  }

  /** An evicted and recreated entry that the dump reads next makes this row. */
  lemma ComebackRow(cpus: nat, m: nat, s: System, k: FlowKey, received: bool, size: nat, n: nat, grown: nat)
    returns (delta: Counters)
    requires cpus > 0 && CanMove(k, received) && 0 < size <= m && forall x :: x in s.cells ==> |s.cells[x]| == cpus
    requires k in s.previous && !Listed(s.pending, k)
    requires At(AllMoved(received, size, n), grown) > At(s.previous[k], grown)
    ensures EmitsNext(cpus, m, s, Comeback(k, received, size, n), k, delta)
    ensures forall c: nat :: At(delta, c) == Pos(At(AllMoved(received, size, n), c) - At(s.previous[k], c))
  {
    ComesBack(cpus, m, s, k, received, size, n);
    var u := ExecFrom(cpus, s, Comeback(k, received, size, n));
    delta := Growth(s.previous[k], SumFor(u.pending, k));
    ListedRow(u, k, grown);
    forall c: nat ensures At(delta, c) == Pos(At(AllMoved(received, size, n), c) - At(s.previous[k], c)) {
      GrowthAt(s.previous[k], SumFor(u.pending, k), c);
    }
  }

  /** `bytes / m + 1` calls of `m` bytes move more than `bytes`, and are no more than `calls`. */
  lemma EnoughLongCalls(m: nat, bytes: nat, calls: nat)
    requires bytes < m * calls
    ensures m > 0 && m * (bytes / m + 1) > bytes && bytes / m + 1 <= calls
  {
    assert m > 0;
    var q := bytes / m;
    assert bytes == m * q + bytes % m;
    MoreOf(m, calls, q);
  }

  /** The worst case for a consumer: bytes climb and packets stay 0. As few of the longest
      calls as outdo the baseline's bytes do it. */
  lemma LongCallsBreak(cpus: nat, m: nat, s: System, k: FlowKey) returns (more: seq<Event>, delta: Counters)
    requires cpus > 0 && AllPlausible(m, s, k) && forall x :: x in s.cells ==> |s.cells[x]| == cpus
    requires k in s.previous && !Listed(s.pending, k) && HasRoom(m, s.previous[k])
    ensures EmitsNext(cpus, m, s, more, k, delta) && BytesWithoutPackets(delta)
  {
    var received, n := LongCalls(m, k, s.previous[k]);
    more := Comeback(k, received, m, n);
    delta := SoManyLongCallsBreak(cpus, m, s, k, received, n);
  }

  /** The direction with room, and how many long calls to make after the first. */
  lemma LongCalls(m: nat, k: FlowKey, v: Counters) returns (received: bool, n: nat)
    requires Written(k) && Plausible(m, k, v) && HasRoom(m, v)
    ensures CanMove(k, received) && m > 0
    ensures m * (n + 1) > At(v, if received then 1 else 0) && n + 1 <= At(v, if received then 3 else 2)
  {
    received := At(v, 1) < m * At(v, 3);
    var bytes := if received then At(v, 1) else At(v, 0);
    EnoughLongCalls(m, bytes, if received then At(v, 3) else At(v, 2));
    n := bytes / m;
  }

  lemma SoManyLongCallsBreak(cpus: nat, m: nat, s: System, k: FlowKey, received: bool, n: nat) returns (delta: Counters)
    requires cpus > 0 && AllPlausible(m, s, k) && forall x :: x in s.cells ==> |s.cells[x]| == cpus
    requires k in s.previous && !Listed(s.pending, k) && CanMove(k, received) && m > 0
    requires m * (n + 1) > At(s.previous[k], if received then 1 else 0)
    requires n + 1 <= At(s.previous[k], if received then 3 else 2)
    ensures EmitsNext(cpus, m, s, Comeback(k, received, m, n), k, delta) && BytesWithoutPackets(delta)
  {
    delta := ComebackRow(cpus, m, s, k, received, m, n, if received then 1 else 0);
    RowOfLongCalls(s.previous[k], received, m * (n + 1), n + 1, delta);
  }

  lemma RowOfLongCalls(v: Counters, received: bool, bytes: nat, calls: nat, delta: Counters)
    requires forall c: nat | c < 5 ::
               At(v, c) >= 0 && At(delta, c) == Pos(At(Moved(received, bytes, calls), c) - At(v, c))
    requires bytes > At(v, if received then 1 else 0) && calls <= At(v, if received then 3 else 2)
    ensures BytesWithoutPackets(delta)
  {
  }

  /** And the other way round: one call of one byte more than the baseline has calls. */
  lemma ManyCallsBreak(cpus: nat, m: nat, s: System, k: FlowKey) returns (more: seq<Event>, delta: Counters)
    requires cpus > 0 && AllPlausible(m, s, k) && forall x :: x in s.cells ==> |s.cells[x]| == cpus
    requires k in s.previous && !Listed(s.pending, k) && HasLongCalls(s.previous[k])
    ensures EmitsNext(cpus, m, s, more, k, delta) && PacketsWithoutBytes(delta)
  {
    var v := s.previous[k];
    var received := At(v, 1) > At(v, 3);
    var n := if received then At(v, 3) else At(v, 2);
    delta := ComebackRow(cpus, m, s, k, received, 1, n, if received then 3 else 2);
    more := Comeback(k, received, 1, n);
  }

  ghost predicate CanEmit(cpus: nat, m: nat, s: System, k: FlowKey, kind: Counters -> bool)
    requires forall x :: x in s.cells ==> |s.cells[x]| == cpus
  {
    exists more, delta :: EmitsNext(cpus, m, s, more, k, delta) && kind(delta)
  }

  /** Full calls of two bytes and more are long calls. */
  lemma FullCallsAreLong(m: nat, k: FlowKey, v: Counters)
    requires Plausible(m, k, v) && HasCalls(v) && m >= 2 && !HasRoom(m, v)
    ensures HasLongCalls(v)
  {
    assert At(v, 2) > 0 ==> m * At(v, 2) > At(v, 2);
    assert At(v, 3) > 0 ==> m * At(v, 3) > At(v, 3);
  }

  lemma CannotEmit(cpus: nat, m: nat, s: System, k: FlowKey)
    requires AllPlausible(m, s, k) && k in s.previous && forall x :: x in s.cells ==> |s.cells[x]| == cpus
    ensures CanEmit(cpus, m, s, k, delta => BytesWithoutPackets(delta)) ==> HasRoom(m, s.previous[k])
    ensures CanEmit(cpus, m, s, k, delta => PacketsWithoutBytes(delta)) ==> HasLongCalls(s.previous[k])
    ensures CanEmit(cpus, m, s, k, delta => !LiveRow(delta)) ==> m >= 2 && HasCalls(s.previous[k])
  {
    forall more, delta | EmitsNext(cpus, m, s, more, k, delta)
      ensures BytesWithoutPackets(delta) ==> HasRoom(m, s.previous[k])
      ensures !HasCalls(s.previous[k]) || m <= 1 ==> LiveRow(delta)
      ensures !HasLongCalls(s.previous[k]) ==> !PacketsWithoutBytes(delta)
    {
      NextRow(cpus, m, s, more, k, delta);
    }
  }

  /** In every reachable state in which the dump has yet to reach the flow, for any baseline
      and any bound `m` on the bytes of one call: some course of events makes the next row
      one of bytes without packets if and only if the baseline's calls, in one direction,
      could have moved more than they did; one of packets without bytes if and only if one
      of its calls moved more than one byte; and a row that is not live if and only if the
      baseline has a call in it and calls may move two bytes. */
  lemma EvictionBreaksNextRowIff(cpus: nat, m: nat, events: seq<Event>, k: FlowKey)
    requires cpus > 0 && OnCpus(cpus, events) && CallsUpTo(m, events)
    requires k in Exec(cpus, events).previous && !Listed(Exec(cpus, events).pending, k)
    ensures var s := Exec(cpus, events);
            && (CanEmit(cpus, m, s, k, delta => BytesWithoutPackets(delta)) <==> HasRoom(m, s.previous[k]))
            && (CanEmit(cpus, m, s, k, delta => PacketsWithoutBytes(delta)) <==> HasLongCalls(s.previous[k]))
            && (CanEmit(cpus, m, s, k, delta => !LiveRow(delta)) <==> m >= 2 && HasCalls(s.previous[k]))
  {
    var s := Exec(cpus, events);
    AlwaysPlausible(cpus, m, events, k);
    CannotEmit(cpus, m, s, k);
    if HasRoom(m, s.previous[k]) {
      var more, delta := LongCallsBreak(cpus, m, s, k);
      assert BytesWithoutPackets(delta) && !LiveRow(delta);
    } else if m >= 2 && HasCalls(s.previous[k]) {
      FullCallsAreLong(m, k, s.previous[k]);
    }
    if HasLongCalls(s.previous[k]) {
      var more, delta := ManyCallsBreak(cpus, m, s, k);
      assert PacketsWithoutBytes(delta) && !LiveRow(delta);
    }
  }

  lemma ReadAndDone(cpus: nat, s: System, u: System, k: FlowKey, v: Counters)
    requires HasRead(s, u, k, v) && forall x :: x in u.cells ==> |u.cells[x]| == cpus
    ensures var t := Step(cpus, u, EndDump);
            && k in t.previous && t.pending == [] && forall c: nat :: At(t.previous[k], c) == At(v, c)
  {
    BaselineIsTheSum(u.pending, k);
  }

  lemma FirstCheckpoint(cpus: nat, e: Event, k: FlowKey, received: bool, size: nat)
    requires IsMove(cpus, e, k, received, size)
    ensures var t := Step(cpus, Step(cpus, Step(cpus, BOOT, e), Read(k)), EndDump);
            && k in t.previous && t.pending == []
            && forall c: nat :: At(t.previous[k], c) == At(Moved(received, size, 1), c)
  {
    MoveCreates(cpus, BOOT, e, k, received, size);
    var moved := Step(cpus, BOOT, e);
    ReadsMoved(cpus, BOOT, moved, k, Moved(received, size, 1));
    ReadAndDone(cpus, BOOT, Step(cpus, moved, Read(k)), k, Moved(received, size, 1));
  }

  /** One call, and a dump that reads the entry it makes. */
  function OneCall(e: Event, k: FlowKey): seq<Event> {
    [] + [e] + [Read(k)] + [EndDump]
  }

  lemma FirstEvents(cpus: nat, m: nat, e: Event, k: FlowKey)
    requires e.Hook? && e.run.cpu < cpus && CallUpTo(m, e)
    ensures OnCpus(cpus, OneCall(e, k)) && CallsUpTo(m, OneCall(e, k))
    ensures Exec(cpus, OneCall(e, k)) == Step(cpus, Step(cpus, Step(cpus, BOOT, e), Read(k)), EndDump)
  {
    ExecMore(cpus, [], e);
    ExecMore(cpus, [] + [e], Read(k));
    ExecMore(cpus, [] + [e] + [Read(k)], EndDump);
  }

  /** Such baselines are there from the first call on. */
  lemma OneCallMakesSuchABaseline(cpus: nat, m: nat, k: FlowKey, received: bool, size: nat)
    requires cpus > 0 && CanMove(k, received) && 0 < size <= m
    ensures var events := OneCall(Hook(Moves(k, received, size)), k);
            && OnCpus(cpus, events) && CallsUpTo(m, events)
            && var s := Exec(cpus, events);
            && k in s.previous && !Listed(s.pending, k) && HasCalls(s.previous[k])
            && (size > 1 <==> HasLongCalls(s.previous[k]))
            && (size < m <==> HasRoom(m, s.previous[k]))
  {
    MovesAre(cpus, k, received, size);
    var e := Hook(Moves(k, received, size));
    FirstEvents(cpus, m, e, k);
    FirstCheckpoint(cpus, e, k, received, size);
    BaselineOfOneCall(m, received, size, Exec(cpus, OneCall(e, k)).previous[k]);
  }

  lemma BaselineOfOneCall(m: nat, received: bool, size: nat, v: Counters)
    requires 0 < size <= m && forall c: nat | c < 5 :: At(v, c) == At(Moved(received, size, 1), c)
    ensures HasCalls(v) && (size > 1 <==> HasLongCalls(v)) && (size < m <==> HasRoom(m, v))
  {
  }
}
