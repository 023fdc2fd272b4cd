/** The TCP and UDP channel collectors: which systemd unit and channel a row belongs to. */
module ChannelCollectors {
  import opened Wrappers
  import opened Checkpoint
  import opened CheckpointEngine
  import opened CheckpointRuns
  import opened CheckpointClock
  import opened Addresses
  import opened PerCpuValue
  import opened ChannelHooks
  import opened Protocols

  type FlowRow = Row<FlowKey, FlowValue>
  type FlowDump = seq<Entry<FlowKey, FlowValue>>

  /** What `/proc` says of a process while the i-th row is labelled: `proc(i)(pid)`. */
  type ProcView = nat -> nat -> string

  // ------------------------------------------------------------------- the catalog

  datatype ChannelTarget = ChannelTarget(
    channel: string, unit: string, url: string, host: string, port: nat, addresses: seq<string>)

  datatype Status = Matched | UnknownUnit | UnexpectedFlow

  datatype ChannelMatch = ChannelMatch(target: Option<ChannelTarget>, status: Status)

  /** The dictionary `by_unit`: of several targets of one unit, the last stays. */
  function ByUnit(targets: seq<ChannelTarget>): map<string, ChannelTarget> {
    if targets == [] then map[]
    else
      var n := |targets| - 1;
      ByUnit(targets[..n])[targets[n].unit := targets[n]]
  }

  function MatchFlow(targets: seq<ChannelTarget>, unit: string, dstIp: string, dstPort: nat): ChannelMatch {
    var byUnit := ByUnit(targets);
    if unit !in byUnit then ChannelMatch(None, UnknownUnit)
    else
      var t := byUnit[unit];
      if t.port != dstPort then ChannelMatch(Some(t), UnexpectedFlow)
      else if t.addresses != [] && dstIp !in t.addresses then ChannelMatch(Some(t), UnexpectedFlow)
      else ChannelMatch(Some(t), Matched)
  }

  /** `i` is the last target of its unit. */
  predicate LastOfUnit(targets: seq<ChannelTarget>, i: int) {
    0 <= i < |targets| && forall j :: i < j < |targets| ==> targets[j].unit != targets[i].unit
  }

  predicate HasUnit(targets: seq<ChannelTarget>, unit: string) {
    exists i :: 0 <= i < |targets| && targets[i].unit == unit
  }

  lemma {:induction false} ByUnitKnows(targets: seq<ChannelTarget>, unit: string)
    ensures unit in ByUnit(targets) <==> HasUnit(targets, unit)
  {
    if targets != [] {
      var n := |targets| - 1;
      var init := targets[..n];
      ByUnitKnows(init, unit);
      if HasUnit(init, unit) {
        var i :| 0 <= i < n && init[i].unit == unit;
        assert targets[i].unit == unit;
      }
      if HasUnit(targets, unit) && targets[n].unit != unit {
        var i :| 0 <= i < |targets| && targets[i].unit == unit;
        assert init[i].unit == unit;
      }
    }
  }

  lemma {:induction false} ByUnitKeepsTheLast(targets: seq<ChannelTarget>, i: nat)
    requires LastOfUnit(targets, i)
    ensures targets[i].unit in ByUnit(targets) && ByUnit(targets)[targets[i].unit] == targets[i]
    decreases |targets|
  {
    var n := |targets| - 1;
    if i < n {
      assert LastOfUnit(targets[..n], i);
      ByUnitKeepsTheLast(targets[..n], i);
      assert targets[n].unit != targets[i].unit;
    }
  }

  lemma {:induction false} LastExists(targets: seq<ChannelTarget>, unit: string) returns (i: nat)
    requires HasUnit(targets, unit)
    ensures LastOfUnit(targets, i) && targets[i].unit == unit
  {
    var n := |targets| - 1;
    if targets[n].unit == unit {
      i := n;
    } else {
      var j :| 0 <= j < |targets| && targets[j].unit == unit;
      assert targets[..n][j].unit == unit;
      i := LastExists(targets[..n], unit);
      forall k | i < k < |targets| ensures targets[k].unit != targets[i].unit {
        assert k < n ==> targets[..n][k].unit != targets[..n][i].unit;
      }
    }
  }

  /** The verdict on a flow of a unit that `t` is the target of. */
  predicate Expects(t: ChannelTarget, ip: string, port: nat) {
    t.port == port && (t.addresses == [] || ip in t.addresses)
  }

  /** The target is the last one of the flow's unit, whatever the verdict, and there is none
      exactly when no target has the unit; the flow matches exactly when that target
      expects its port and, if it lists addresses at all, its address. */
  lemma MatchedIff(targets: seq<ChannelTarget>, unit: string, ip: string, port: nat)
    ensures var m := MatchFlow(targets, unit, ip, port);
            && (m.status == UnknownUnit <==> !HasUnit(targets, unit)) && (m.target.None? <==> !HasUnit(targets, unit))
            && forall i :: LastOfUnit(targets, i) && targets[i].unit == unit ==>
                 m.target == Some(targets[i]) && (m.status == Matched <==> Expects(targets[i], ip, port))
  {
    ByUnitKnows(targets, unit);
    forall i | LastOfUnit(targets, i) && targets[i].unit == unit
      ensures unit in ByUnit(targets) && ByUnit(targets)[unit] == targets[i]
    {
      ByUnitKeepsTheLast(targets, i);
    }
  }

  // --------------------------------------------------------------------- endpoints

  /** The far end of a flow. A UDP receiver bound to a multicast group has no peer, so
      the missing parts are taken from its own address, each by itself. */
  function Endpoint(proto: nat, k: FlowKey): (nat, nat) {
    if proto == IPPROTO_UDP
    then (if k.dstIp4 != 0 then k.dstIp4 else k.srcIp4, if k.dstPort != 0 then k.dstPort else k.srcPort)
    else (k.dstIp4, k.dstPort)
  }

  // ----------------------------------------------------------------------- samples

  datatype ChannelSample = ChannelSample(
    bucketStart: int, bucketMs: int, srcIp: string, dstIp: string, srcPort: nat, dstPort: nat,
    socketId: nat, cgroupId: nat, delta: Counters, unit: string, channel: string, url: string, host: string,
    ifindex: nat, hostPid: nat, state: nat, status: Status, proto: nat)

  datatype ChannelSampleFilter = ChannelSampleFilter(
    channel: Option<string>, unit: Option<string>, host: Option<string>, status: Option<Status>)
  {
    predicate Matches(s: ChannelSample) {
      && (channel.None? || s.channel == channel.value)
      && (unit.None? || s.unit == unit.value)
      && (host.None? || s.host == host.value)
      && (status.None? || s.status == status.value)
    }
  }

  datatype Config = Config(proto: nat, targets: seq<ChannelTarget>, filter: ChannelSampleFilter, bucketMs: int)

  function SampleOf(cfg: Config, start: int, ms: int, r: FlowRow, unit: string): ChannelSample {
    var (ip, port) := Endpoint(cfg.proto, r.key);
    var m := MatchFlow(cfg.targets, unit, FromBpfInt(ip), port);
    var v := r.first.value;
    var t := m.target;
    ChannelSample(
      start, ms, FromBpfInt(r.key.srcIp4), FromBpfInt(ip), r.key.srcPort, port, r.key.socketCookie, r.key.cgroupId,
      r.delta, unit, if t.Some? then t.value.channel else "", if t.Some? then t.value.url else "",
      if t.Some? then t.value.host else "", v.ifindex, v.pid, v.state, m.status, cfg.proto)
  }

  /** The pid-to-unit cache once `rows` are labelled, starting from an empty one. */
  function Cached(rows: seq<FlowRow>, proc: ProcView): map<nat, string> {
    if rows == [] then map[]
    else
      var n := |rows| - 1;
      var cache := Cached(rows[..n], proc);
      var pid := rows[n].first.value.pid;
      if pid == 0 || pid in cache then cache else cache[pid := proc(n)(pid)]
  }

  function UnitIn(cache: map<nat, string>, pid: nat): string {
    if pid in cache then cache[pid] else ""
  }

  function Labelled(cfg: Config, start: int, ms: int, rows: seq<FlowRow>, proc: ProcView): seq<ChannelSample> {
    if rows == [] then []
    else
      var n := |rows| - 1;
      var sample := SampleOf(cfg, start, ms, rows[n], UnitIn(Cached(rows, proc), rows[n].first.value.pid));
      Labelled(cfg, start, ms, rows[..n], proc) + if cfg.filter.Matches(sample) then [sample] else []
  }

  /** The samples of one checkpoint. They do not depend on the cache of the one before. */
  function CheckpointSamples(
    cfg: Config, last: Option<int>, prev: map<FlowKey, Counters>, now: int, dump: FlowDump, proc: ProcView)
    : seq<ChannelSample>
    requires cfg.bucketMs > 0
  {
    Labelled(cfg, BucketStart(now, cfg.bucketMs), Interval(last, now, cfg.bucketMs), Rows(prev, dump), proc)
  }

  // --------------------------------------------------------------------- collector

  /** `TcpChannelCollector` and `UdpChannelCollector`: they differ in their protocol. */
  class ChannelCollector {
    const cfg: Config
    const clock: Clock
    const engine: Engine<FlowKey, FlowValue>
    var pidUnits: map<nat, string>

    ghost predicate Valid() {
      cfg.bucketMs > 0 && clock.bucketMs == cfg.bucketMs
    }

    constructor (cfg: Config)
      requires cfg.bucketMs > 0
      ensures Valid() && this.cfg == cfg && fresh(clock) && fresh(engine)
      ensures clock.last == None && engine.previous == map[]
    {
      this.cfg := cfg;
      clock := new Clock(cfg.bucketMs);
      engine := new Engine();
      pidUnits := map[];
    }

    method ReadCheckpoint(now: int, dump: FlowDump, proc: ProcView) returns (samples: seq<ChannelSample>)
      requires Valid()
      modifies this, clock, engine
      ensures clock.last == Some(now) && engine.previous == Aggregate(dump)
      ensures samples == CheckpointSamples(cfg, old(clock.last), old(engine.previous), now, dump, proc)
    {
      pidUnits := map[];
      var bucketStart, elapsedMs := clock.Tick(now);
      var rows := engine.ReadFlows(dump);
      samples := Label(bucketStart, elapsedMs, rows, proc);
    }

    method Label(start: int, ms: int, rows: seq<FlowRow>, proc: ProcView) returns (samples: seq<ChannelSample>)
      requires pidUnits == map[]
      modifies this
      ensures samples == Labelled(cfg, start, ms, rows, proc)
      ensures pidUnits == Cached(rows, proc)
    {
      samples := [];
      for i := 0 to |rows|
        invariant samples == Labelled(cfg, start, ms, rows[..i], proc)
        invariant pidUnits == Cached(rows[..i], proc)
      {
        OneMoreRow(cfg, start, ms, rows, i, proc);
        var unit := UnitForPid(rows[i].first.value.pid, proc(i));
        var sample := SampleOf(cfg, start, ms, rows[i], unit);
        if cfg.filter.Matches(sample) {
          samples := samples + [sample];
        }
      }
      assert rows[..|rows|] == rows;
    }

    method UnitForPid(pid: nat, proc: nat -> string) returns (unit: string)
      requires 0 !in pidUnits
      modifies this
      ensures pidUnits == if pid == 0 || pid in old(pidUnits) then old(pidUnits) else old(pidUnits)[pid := proc(pid)]
      ensures unit == UnitIn(pidUnits, pid)
    {
      if pid <= 0 {
        return "";
      }
      if pid in pidUnits {
        return pidUnits[pid];
      }
      unit := proc(pid);
      pidUnits := pidUnits[pid := unit];
    }
  }

  lemma OneMoreRow(cfg: Config, start: int, ms: int, rows: seq<FlowRow>, i: nat, proc: ProcView)
    requires i < |rows|
    ensures 0 !in Cached(rows[..i], proc)
    ensures var pid := rows[i].first.value.pid;
            var cache := Cached(rows[..i], proc);
            Cached(rows[..i + 1], proc) == if pid == 0 || pid in cache then cache else cache[pid := proc(i)(pid)]
    ensures var unit := UnitIn(Cached(rows[..i + 1], proc), rows[i].first.value.pid);
            var sample := SampleOf(cfg, start, ms, rows[i], unit);
            Labelled(cfg, start, ms, rows[..i + 1], proc) ==
            Labelled(cfg, start, ms, rows[..i], proc) + if cfg.filter.Matches(sample) then [sample] else []
  {
    CacheIsTheFirstAnswer(rows[..i], proc);
    assert rows[..i + 1][..i] == rows[..i];
  }

  /** Everything one checkpoint reads from outside. */
  datatype Tick = Tick(now: int, dump: FlowDump, proc: ProcView)

  function Dumps(ticks: seq<Tick>): seq<FlowDump> {
    seq(|ticks|, i requires 0 <= i < |ticks| => ticks[i].dump)
  }

  function LastClock(ticks: seq<Tick>): Option<int> {
    if ticks == [] then None else Some(ticks[|ticks| - 1].now)
  }

  function RunSamples(cfg: Config, ticks: seq<Tick>): seq<ChannelSample>
    requires cfg.bucketMs > 0
  {
    if ticks == [] then []
    else
      var n := |ticks| - 1;
      var before := ticks[..n];
      RunSamples(cfg, before)
      + CheckpointSamples(
        cfg, LastClock(before), BaselineAfter(Dumps(before)), ticks[n].now, ticks[n].dump, ticks[n].proc)
  }

  lemma OneMoreTick(cfg: Config, ticks: seq<Tick>, i: nat)
    requires cfg.bucketMs > 0 && i < |ticks|
    ensures LastClock(ticks[..i + 1]) == Some(ticks[i].now)
    ensures BaselineAfter(Dumps(ticks[..i + 1])) == Aggregate(ticks[i].dump)
    ensures RunSamples(cfg, ticks[..i + 1]) == RunSamples(cfg, ticks[..i])
              + CheckpointSamples(cfg, LastClock(ticks[..i]), BaselineAfter(Dumps(ticks[..i])),
                                  ticks[i].now, ticks[i].dump, ticks[i].proc)
  {
    assert ticks[..i + 1][..i] == ticks[..i];
  }

  /** The main loop. */
  method Watch(cfg: Config, ticks: seq<Tick>) returns (written: seq<ChannelSample>, baseline: map<FlowKey, Counters>)
    requires cfg.bucketMs > 0
    ensures written == RunSamples(cfg, ticks)
    ensures baseline == BaselineAfter(Dumps(ticks))
  {
    var collector := new ChannelCollector(cfg);
    written := [];
    for i := 0 to |ticks|
      invariant collector.clock.last == LastClock(ticks[..i])
      invariant collector.engine.previous == BaselineAfter(Dumps(ticks[..i]))
      invariant written == RunSamples(cfg, ticks[..i])
    {
      OneMoreTick(cfg, ticks, i);
      var samples := collector.ReadCheckpoint(ticks[i].now, ticks[i].dump, ticks[i].proc);
      written := written + samples;
    }
    assert ticks[..|ticks|] == ticks;
    baseline := collector.engine.previous;
  }

  // ------------------------------------------------------------------------ units

  /** `j` is the first row of process `pid`. */
  predicate FirstOfPid(rows: seq<FlowRow>, pid: nat, j: int) {
    && 0 <= j < |rows| && rows[j].first.value.pid == pid
    && forall i :: 0 <= i < j ==> rows[i].first.value.pid != pid
  }

  lemma {:induction false} CacheIsTheFirstAnswer(rows: seq<FlowRow>, proc: ProcView)
    ensures 0 !in Cached(rows, proc)
    ensures forall i :: 0 <= i < |rows| && rows[i].first.value.pid != 0 ==>
            rows[i].first.value.pid in Cached(rows, proc)
    ensures forall pid, j :: pid != 0 && FirstOfPid(rows, pid, j) ==>
              pid in Cached(rows, proc) && Cached(rows, proc)[pid] == proc(j)(pid)
    ensures forall pid :: pid in Cached(rows, proc) ==> exists i :: 0 <= i < |rows| && rows[i].first.value.pid == pid
  {
    if rows != [] {
      var n := |rows| - 1;
      var init := rows[..n];
      CacheIsTheFirstAnswer(init, proc);
      forall i | 0 <= i < |rows| && rows[i].first.value.pid != 0
        ensures rows[i].first.value.pid in Cached(rows, proc)
      {
        if i < n {
          assert init[i] == rows[i];
        }
      }
      forall pid, j | pid != 0 && FirstOfPid(rows, pid, j)
        ensures pid in Cached(rows, proc) && Cached(rows, proc)[pid] == proc(j)(pid)
      {
        if j < n {
          assert FirstOfPid(init, pid, j);
        }
      }
      forall pid | pid in Cached(rows, proc) ensures exists i :: 0 <= i < |rows| && rows[i].first.value.pid == pid {
        if pid in Cached(init, proc) {
          var i :| 0 <= i < n && init[i].first.value.pid == pid;
          assert rows[i].first.value.pid == pid;
        } else {
          assert rows[n].first.value.pid == pid;
        }
      }
    }
  }

  /** The unit a sample names is what `/proc` said of its process when the first row of
      that process was labelled, in this very checkpoint. */
  ghost predicate UnitIsFirstAnswer(rows: seq<FlowRow>, proc: ProcView, s: ChannelSample) {
    if s.hostPid == 0 then s.unit == ""
    else exists j :: FirstOfPid(rows, s.hostPid, j) && s.unit == proc(j)(s.hostPid)
  }

  lemma {:induction false} FirstRowExists(rows: seq<FlowRow>, pid: nat, i: nat) returns (j: nat)
    requires i < |rows| && rows[i].first.value.pid == pid
    ensures FirstOfPid(rows, pid, j)
    decreases i
  {
    if k :| 0 <= k < i && rows[k].first.value.pid == pid {
      j := FirstRowExists(rows, pid, k);
    } else {
      j := i;
    }
  }

  lemma StillTheFirstAnswer(rows: seq<FlowRow>, proc: ProcView, s: ChannelSample)
    requires rows != [] && UnitIsFirstAnswer(rows[..|rows| - 1], proc, s)
    ensures UnitIsFirstAnswer(rows, proc, s)
  {
    var init := rows[..|rows| - 1];
    if s.hostPid != 0 {
      var i :| FirstOfPid(init, s.hostPid, i) && s.unit == proc(i)(s.hostPid);
      assert forall j :: 0 <= j <= i ==> init[j] == rows[j];
      assert FirstOfPid(rows, s.hostPid, i);
    }
  }

  lemma LastAnswer(cfg: Config, start: int, ms: int, rows: seq<FlowRow>, proc: ProcView)
    requires rows != []
    ensures var r := rows[|rows| - 1];
            UnitIsFirstAnswer(rows, proc, SampleOf(cfg, start, ms, r, UnitIn(Cached(rows, proc), r.first.value.pid)))
  {
    CacheIsTheFirstAnswer(rows, proc);
    var n := |rows| - 1;
    var pid := rows[n].first.value.pid;
    var j := FirstRowExists(rows, pid, n);
    assert pid != 0 ==> Cached(rows, proc)[pid] == proc(j)(pid);
  }

  /** So no answer outlives its checkpoint ... */
  lemma {:induction false} UnitsAreFirstAnswers(
    cfg: Config, start: int, ms: int, rows: seq<FlowRow>, proc: ProcView, s: ChannelSample)
    requires s in Labelled(cfg, start, ms, rows, proc)
    ensures UnitIsFirstAnswer(rows, proc, s)
    decreases |rows|
  {
    var init := rows[..|rows| - 1];
    if s in Labelled(cfg, start, ms, init, proc) {
      UnitsAreFirstAnswers(cfg, start, ms, init, proc, s);
      StillTheFirstAnswer(rows, proc, s);
    } else {
      LastAnswer(cfg, start, ms, rows, proc);
    }
  }

  /** ... and within a checkpoint all samples of a process agree on its unit, even while
      pids are being reused. */
  lemma OneUnitPerProcess(
    cfg: Config, start: int, ms: int, rows: seq<FlowRow>, proc: ProcView, s: ChannelSample, t: ChannelSample)
    requires s in Labelled(cfg, start, ms, rows, proc) && t in Labelled(cfg, start, ms, rows, proc)
    requires s.hostPid == t.hostPid
    ensures s.unit == t.unit
    ensures s.dstIp == t.dstIp && s.dstPort == t.dstPort ==> s.status == t.status
  {
    UnitsAreFirstAnswers(cfg, start, ms, rows, proc, s);
    UnitsAreFirstAnswers(cfg, start, ms, rows, proc, t);
    SamplesMatch(cfg, start, ms, rows, proc);
    assert LabelledByItsUnit(cfg.targets, s) && LabelledByItsUnit(cfg.targets, t);
    if HasUnit(cfg.targets, s.unit) && s.unit == t.unit {
      var last := LastExists(cfg.targets, s.unit);
      assert LabelledBy(cfg.targets[last], s) && LabelledBy(cfg.targets[last], t);
    }
    if s.hostPid != 0 {
      var i :| FirstOfPid(rows, s.hostPid, i) && s.unit == proc(i)(s.hostPid);
      var j :| FirstOfPid(rows, t.hostPid, j) && t.unit == proc(j)(t.hostPid);
    }
  }

  /** The labels that come from the catalog are those of the last target of the very unit
      the sample prints, and empty if there is none; the status is the verdict on the
      endpoint it prints. */
  predicate LabelledByItsUnit(targets: seq<ChannelTarget>, s: ChannelSample) {
    && (!HasUnit(targets, s.unit) ==> s.channel == "" && s.url == "" && s.host == "" && s.status == UnknownUnit)
    && (forall i :: 0 <= i < |targets| && LastOfUnit(targets, i) && targets[i].unit == s.unit ==>
          LabelledBy(targets[i], s))
  }

  predicate LabelledBy(t: ChannelTarget, s: ChannelSample) {
    && s.channel == t.channel && s.url == t.url && s.host == t.host
    && s.status == (if Expects(t, s.dstIp, s.dstPort) then Matched else UnexpectedFlow)
  }

  lemma SampleMatches(cfg: Config, start: int, ms: int, r: FlowRow, unit: string)
    ensures LabelledByItsUnit(cfg.targets, SampleOf(cfg, start, ms, r, unit))
  {
    var s := SampleOf(cfg, start, ms, r, unit);
    MatchedIff(cfg.targets, unit, s.dstIp, s.dstPort);
  }

  lemma {:induction false} SamplesMatch(cfg: Config, start: int, ms: int, rows: seq<FlowRow>, proc: ProcView)
    ensures forall s :: s in Labelled(cfg, start, ms, rows, proc) ==> LabelledByItsUnit(cfg.targets, s)
  {
    if rows != [] {
      var n := |rows| - 1;
      SamplesMatch(cfg, start, ms, rows[..n], proc);
      SampleMatches(cfg, start, ms, rows[n], UnitIn(Cached(rows, proc), rows[n].first.value.pid));
    }
  }

  // ------------------------------------------------------------------ what is printed

  predicate Addressed(k: FlowKey) {
    k.srcIp4 < 0x1_0000_0000 && k.dstIp4 < 0x1_0000_0000
  }

  /** Two flows of one protocol print alike. */
  predicate PrintAlike(proto: nat, a: FlowKey, b: FlowKey) {
    && a.socketCookie == b.socketCookie && a.cgroupId == b.cgroupId
    && FromBpfInt(a.srcIp4) == FromBpfInt(b.srcIp4) && a.srcPort == b.srcPort
    && FromBpfInt(Endpoint(proto, a).0) == FromBpfInt(Endpoint(proto, b).0)
    && Endpoint(proto, a).1 == Endpoint(proto, b).1
  }

  /** `a` and `b` agree on a part of the peer, or one lacks it and the other has its own
      address there. */
  predicate SamePart(a: nat, b: nat, own: nat) {
    a == b || (a == 0 && b == own) || (b == 0 && a == own)
  }

  /** TCP rows of two flows never print alike. UDP rows of two flows do exactly when the
      flows are one socket's, and differ only in that one has no peer and the other is
      its own peer. */
  lemma PrintAlikeIff(proto: nat, a: FlowKey, b: FlowKey)
    requires ValidKey(proto, a) && ValidKey(proto, b) && Addressed(a) && Addressed(b)
    ensures proto == IPPROTO_TCP ==> (PrintAlike(proto, a, b) <==> a == b)
    ensures proto == IPPROTO_UDP ==>
              (PrintAlike(proto, a, b) <==>
               b == a.(dstIp4 := b.dstIp4, dstPort := b.dstPort)
               && SamePart(a.dstIp4, b.dstIp4, a.srcIp4) && SamePart(a.dstPort, b.dstPort, a.srcPort))
  {
    BpfIntPrintsInjectively(a.srcIp4, b.srcIp4);
    BpfIntPrintsInjectively(Endpoint(proto, a).0, Endpoint(proto, b).0);
  }
}
