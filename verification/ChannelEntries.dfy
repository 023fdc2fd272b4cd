/** What an entry of a channel map knows of the calls on its flow: which calls count, and
    for how much, and which of them its labels come from. */
module ChannelEntries {
  import opened Wrappers
  import opened Checkpoint
  import opened PerCpuValue
  import opened ChannelHooks
  import opened ChannelRuns

  // ----------------------------------------------------------------- what counts

  /** The call is one on the flow's socket: over IPv4, with a cookie and a local port and,
      for TCP, with a peer. */
  predicate CallOf(run: Run, k: FlowKey) {
    run.sk.Some? &&
    var s := run.sk.value;
    && s.family == 2 && s.cookie != 0 && s.num != 0
    && (run.call.UdpRecv? || (s.daddr != 0 && s.dport != 0))
    && k.family == 2 && k.ipProto == (if run.call.UdpRecv? then 17 else 6) && k.cgroupId == run.cgroup
    && k.socketCookie == s.cookie && k.srcIp4 == s.rcvSaddr && k.srcPort == s.num
    && k.dstIp4 == s.daddr && k.dstPort == s.dport
  }

  /** A read that leaves the datagram in its queue (MSG_PEEK, 2), or is of the error queue
      (MSG_ERRQUEUE, 8192). */
  predicate IsNoRead(flags: bv32) {
    flags & 0x2 != 0 || flags & 0x2000 != 0
  }

  /** The counters that count bytes, and those that count calls. */
  const TX_BYTES := 0
  const RX_BYTES := 1
  const TX_CALLS := 2
  const RX_CALLS := 3
  const CONNECTIONS := 4

  /** What a call adds to a counter, said counter by counter. */
  function Adds(call: Call, c: nat): int {
    if c == TX_BYTES then
      if call.SendMsg? && call.ret > 0 then call.ret else 0
    else if c == TX_CALLS then
      if call.SendMsg? && call.ret > 0 then 1 else 0
    else if c == RX_BYTES then
      if Receives(call) then call.ret else 0
    else if c == RX_CALLS then
      if Receives(call) then 1 else 0
    else
      if c == CONNECTIONS && call.Connect? && call.ret == 0 then 1 else 0
  }

  predicate Receives(call: Call) {
    (call.RecvMsg? && call.ret > 0) || (call.UdpRecv? && !IsNoRead(call.flags) && call.ret > 0)
  }

  predicate Counts(call: Call) {
    (call.SendMsg? && call.ret > 0) || Receives(call) || (call.Connect? && call.ret == 0)
  }

  lemma NoReadIff(flags: bv32)
    ensures IsNoRead(flags) <==> flags & 0x2002 != 0
  {
  }

  lemma HooksCountCalls(call: Call)
    ensures Accounts(call) <==> Counts(call)
    ensures forall c: nat :: At(Amounts(call), c) == Adds(call, c)
  {
    if call.UdpRecv? {
      NoReadIff(call.flags);
    }
  }

  lemma HooksFindTheFlow(run: Run, k: FlowKey)
    ensures FillKey(run.call, run.sk, run.cgroup) == Some(k) <==> CallOf(run, k)
  {
  }

  /** For every flow, counter, call, result and flags: an entry that is there moves by what
      the call adds if the call is on its flow, and else not at all; one that is not there
      is made exactly by an admitted call on its flow that counts, and starts with what
      that call adds.  So a peek, an error queue read and a failed call count nothing. */
  lemma WhatCounts(cpus: nat, cells: Cells, run: Run, k: FlowKey, c: nat)
    requires run.cpu < cpus && forall x :: x in cells ==> |cells[x]| == cpus
    ensures var after := HookStep(cpus, cells, run);
            && (k in cells ==>
                  && k in after
                  && Reading(after, k, c) == Reading(cells, k, c) + if CallOf(run, k) then Adds(run.call, c) else 0)
            && (k !in cells ==>
                  && (k in after <==> CallOf(run, k) && Counts(run.call) && run.admitted)
                  && Reading(after, k, c) == if k in after then Adds(run.call, c) else 0)
  {
    HooksCountCalls(run.call);
    HooksFindTheFlow(run, k);
    if k in cells {
      HookOnPresentFlow(cpus, cells, run, k, c);
    } else {
      HookOnAbsentFlow(cpus, cells, run, k, c);
    }
  }

  // ------------------------------------------------------------- what is remembered

  /** The runs on one CPU that wrote to the flow's entry since the entry was made. */
  function Writers(cpus: nat, events: seq<Event>, k: FlowKey, cpu: nat): seq<Run>
    requires OnCpus(cpus, events)
  {
    if events == [] then []
    else
      var before, e := events[..|events| - 1], events[|events| - 1];
      if e == Evict(k) || e.Reload? then []
      else if Writes(e, k, cpu) && k in Exec(cpus, events).cells then Writers(cpus, before, k, cpu) + [e.run]
      else Writers(cpus, before, k, cpu)
  }

  predicate Writes(e: Event, k: FlowKey, cpu: nat) {
    e.Hook? && e.run.cpu == cpu && CallOf(e.run, k) && (Counts(e.run.call) || e.run.call.SetState?)
  }

  /** The last state a run set, or 0. */
  function LastState(runs: seq<Run>): nat {
    if runs == [] then 0
    else
      var n := |runs| - 1;
      if runs[n].call.SetState? then runs[n].call.newState else LastState(runs[..n])
  }

  /** A change of state brings no labels. */
  function PidOf(run: Run): nat {
    if run.call.SetState? then 0 else run.pid
  }

  function StartOf(run: Run): nat {
    if run.call.SetState? then 0 else run.now
  }

  function InterfaceOf(run: Run): nat {
    if run.call.SetState? || run.sk.None? then 0 else run.sk.value.boundIf
  }

  function PidsOf(runs: seq<Run>): seq<nat> {
    seq(|runs|, i requires 0 <= i < |runs| => PidOf(runs[i]))
  }

  function StartsOf(runs: seq<Run>): seq<nat> {
    seq(|runs|, i requires 0 <= i < |runs| => StartOf(runs[i]))
  }

  function InterfacesOf(runs: seq<Run>): seq<nat> {
    seq(|runs|, i requires 0 <= i < |runs| => InterfaceOf(runs[i]))
  }

  function AddedBy(runs: seq<Run>, c: nat): int {
    if runs == [] then 0 else AddedBy(runs[..|runs| - 1], c) + Adds(runs[|runs| - 1].call, c)
  }

  /** A CPU's value is the account of the runs that wrote to it: the time is that of the
      last one; pid, start and interface are each the first that is not 0; the state is
      the last one set; and the counters are what the runs added. */
  ghost predicate Remembers(v: FlowValue, runs: seq<Run>) {
    && v.lastNs == (if runs == [] then 0 else runs[|runs| - 1].now)
    && v.state == LastState(runs)
    && IsFirstNonzero(v.pid, PidsOf(runs))
    && IsFirstNonzero(v.startNs, StartsOf(runs))
    && IsFirstNonzero(v.ifindex, InterfacesOf(runs))
    && forall c: nat | c < 5 :: At(CountersOf(v), c) == AddedBy(runs, c)
  }

  lemma RemembersNothing()
    ensures Remembers(EMPTY, [])
  {
  }

  lemma RemembersLabels(v: FlowValue, runs: seq<Run>, run: Run)
    requires Remembers(v, runs) && run.sk.Some? && (Counts(run.call) || run.call.SetState?)
    ensures var more, w := runs + [run], Updated(v, run);
            && IsFirstNonzero(w.pid, PidsOf(more)) && IsFirstNonzero(w.startNs, StartsOf(more))
            && IsFirstNonzero(w.ifindex, InterfacesOf(more))
  {
    FirstNonzeroStep(v.pid, PidsOf(runs), PidOf(run));
    FirstNonzeroStep(v.startNs, StartsOf(runs), StartOf(run));
    FirstNonzeroStep(v.ifindex, InterfacesOf(runs), InterfaceOf(run));
    assert PidsOf(runs + [run]) == PidsOf(runs) + [PidOf(run)];
    assert StartsOf(runs + [run]) == StartsOf(runs) + [StartOf(run)];
    assert InterfacesOf(runs + [run]) == InterfacesOf(runs) + [InterfaceOf(run)];
  }

  lemma RemembersCounters(v: FlowValue, runs: seq<Run>, run: Run, c: nat)
    requires Remembers(v, runs) && run.sk.Some? && c < 5
    ensures At(CountersOf(Updated(v, run)), c) == AddedBy(runs + [run], c)
  {
    var more := runs + [run];
    assert more[..|more| - 1] == runs;
    HooksCountCalls(run.call);
    UpdatedReads(v, run, c);
  }

  lemma RemembersOneMore(v: FlowValue, runs: seq<Run>, run: Run)
    requires Remembers(v, runs) && run.sk.Some? && (Counts(run.call) || run.call.SetState?)
    ensures Remembers(Updated(v, run), runs + [run])
  {
    var more := runs + [run];
    assert more[..|more| - 1] == runs;
    RemembersLabels(v, runs, run);
    forall c: nat | c < 5 ensures At(CountersOf(Updated(v, run)), c) == AddedBy(more, c) {
      RemembersCounters(v, runs, run, c);
    }
  }

  /** The value that a call finds on its own CPU when it makes the entry already bears its
      labels; the update then changes nothing about them. */
  lemma FreshRemembers(cpus: nat, run: Run)
    requires run.cpu < cpus && run.sk.Some? && Counts(run.call)
    ensures Updated(Fresh(cpus, run)[run.cpu], run) == Updated(EMPTY, run)
    ensures Remembers(Updated(EMPTY, run), [] + [run])
  {
    RemembersNothing();
    RemembersOneMore(EMPTY, [], run);
  }

  /** What one run leaves in the CPU's value. */
  ghost predicate CellHolds(cells: Cells, k: FlowKey, cpu: nat, runs: seq<Run>) {
    if k in cells then cpu < |cells[k]| && Remembers(cells[k][cpu], runs) else runs == []
  }

  lemma HookHolds(cpus: nat, cells: Cells, run: Run, k: FlowKey, cpu: nat, runs: seq<Run>)
    requires cpu < cpus && run.cpu < cpus && forall x :: x in cells ==> |cells[x]| == cpus
    requires CellHolds(cells, k, cpu, runs)
    ensures var after := HookStep(cpus, cells, run);
            CellHolds(after, k, cpu, if Writes(Hook(run), k, cpu) && k in after then runs + [run] else runs)
  {
    HooksCountCalls(run.call);
    HooksFindTheFlow(run, k);
    if Writes(Hook(run), k, run.cpu) {
      if k in cells {
        if cpu == run.cpu {
          RemembersOneMore(cells[k][cpu], runs, run);
        }
      } else if !run.call.SetState? {
        FreshRemembers(cpus, run);
        RemembersNothing();
      }
    }
  }

  /** In every reachable state, whatever was evicted, reloaded and dumped meanwhile: each
      CPU's value of each entry remembers the runs that wrote to it since the entry was
      made, and nothing else. */
  lemma {:induction false} EntriesRememberTheirCalls(cpus: nat, events: seq<Event>, k: FlowKey, cpu: nat)
    requires OnCpus(cpus, events) && cpu < cpus
    ensures CellHolds(Exec(cpus, events).cells, k, cpu, Writers(cpus, events, k, cpu))
  {
    if events != [] {
      var before, e := events[..|events| - 1], events[|events| - 1];
      EntriesRememberTheirCalls(cpus, before, k, cpu);
      if e.Hook? {
        HookHolds(cpus, Exec(cpus, before).cells, e.run, k, cpu, Writers(cpus, before, k, cpu));
      }
    }
  }

  // --------------------------------------------------------------- whose row it is

  lemma PidIsOfARun(v: FlowValue, runs: seq<Run>) returns (i: nat)
    requires Remembers(v, runs) && v.pid != 0
    ensures i < |runs| && PidOf(runs[i]) == v.pid
  {
    i :| i < |PidsOf(runs)| && PidsOf(runs)[i] == v.pid;
  }

  /** The process that a row is attributed to made a counted call on the flow, on some CPU,
      since the entry was made; a row has none only if no process with a pid did. */
  lemma ReadingNamesACaller(cpus: nat, events: seq<Event>, k: FlowKey)
    requires OnCpus(cpus, events) && k in Exec(cpus, events).cells
    ensures var pid := Fold(Exec(cpus, events).cells[k]).pid;
            if pid != 0
            then exists cpu, i :: 0 <= cpu < cpus && 0 <= i < |Writers(cpus, events, k, cpu)| &&
                                  PidOf(Writers(cpus, events, k, cpu)[i]) == pid
            else forall cpu, i :: 0 <= cpu < cpus && 0 <= i < |Writers(cpus, events, k, cpu)| ==>
                                  PidOf(Writers(cpus, events, k, cpu)[i]) == 0
  {
    var cell := Exec(cpus, events).cells[k];
    FoldLabels(cell);
    var pid := Fold(cell).pid;
    if pid != 0 {
      var cpu :| 0 <= cpu < |cell| && Pids(cell)[cpu] == pid;
      EntriesRememberTheirCalls(cpus, events, k, cpu);
      var i := PidIsOfARun(cell[cpu], Writers(cpus, events, k, cpu));
    } else {
      forall cpu, i | 0 <= cpu < cpus && 0 <= i < |Writers(cpus, events, k, cpu)|
        ensures PidOf(Writers(cpus, events, k, cpu)[i]) == 0
      {
        EntriesRememberTheirCalls(cpus, events, k, cpu);
        assert Pids(cell)[cpu] == 0;
        assert PidsOf(Writers(cpus, events, k, cpu))[i] == 0;
      }
    }
  }
}
