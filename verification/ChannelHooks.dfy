/** The kernel side of the channel collectors: five hooks that account one call each
    into an LRU map of per-CPU values. */
module ChannelHooks {
  import opened Wrappers
  import opened Checkpoint
  import opened PerCpuValue
  import opened Protocols

  const MSG_PEEK_OR_ERRQUEUE: bv32 := 0x2002

  /** What the hooks read of a `struct sock`; ports are in host order. */
  datatype Sock = Sock(
    family: nat, cookie: nat, rcvSaddr: nat, daddr: nat, num: nat, dport: nat, boundIf: nat)

  datatype FlowKey = FlowKey(
    socketCookie: nat, srcIp4: nat, dstIp4: nat, srcPort: nat, dstPort: nat,
    family: nat, ipProto: nat, cgroupId: nat)

  /** `validate_tcp_flow_key` and `validate_udp_flow_key`. */
  predicate ValidKey(proto: nat, k: FlowKey) {
    k.socketCookie > 0 && k.family == AF_INET && k.ipProto == proto
  }

  datatype Call =
    | Connect(ret: int)
    | SendMsg(ret: int)
    | RecvMsg(ret: int)
    | SetState(newState: nat)
    | UdpRecv(flags: bv32, ret: int)

  /** The key a call is accounted under, if it is accounted at all. A TCP flow needs a
      peer; a UDP receiver may be bound to a multicast group without one. */
  function FillKey(call: Call, sk: Option<Sock>, cgroup: nat): Option<FlowKey> {
    if sk.None? || sk.value.family != AF_INET || sk.value.cookie == 0 then None
    else
      var s := sk.value;
      if call.UdpRecv? then
        if s.num == 0 then None
        else Some(FlowKey(s.cookie, s.rcvSaddr, s.daddr, s.num, s.dport, AF_INET, IPPROTO_UDP, cgroup))
      else
        if s.num == 0 || s.dport == 0 || s.daddr == 0 then None
        else Some(FlowKey(s.cookie, s.rcvSaddr, s.daddr, s.num, s.dport, AF_INET, IPPROTO_TCP, cgroup))
  }

  /** What a call adds to the five counters: one successful call moves bytes and
      counts once; a peek or an error-queue read moves nothing. */
  function Amounts(call: Call): Counters {
    match call
    case Connect(ret) => [0, 0, 0, 0, if ret == 0 then 1 else 0]
    case SendMsg(ret) => if ret > 0 then [ret, 0, 1, 0, 0] else [0, 0, 0, 0, 0]
    case RecvMsg(ret) => if ret > 0 then [0, ret, 0, 1, 0] else [0, 0, 0, 0, 0]
    case SetState(_) => [0, 0, 0, 0, 0]
    case UdpRecv(flags, ret) =>
      if flags & MSG_PEEK_OR_ERRQUEUE == 0 && ret > 0 then [0, ret, 0, 1, 0] else [0, 0, 0, 0, 0]
  }

  /** Does the call reach the map with intent to account (rather than return early)? */
  predicate Accounts(call: Call) {
    match call
    case Connect(ret) => ret == 0
    case SendMsg(ret) => ret > 0
    case RecvMsg(ret) => ret > 0
    case SetState(_) => false
    case UdpRecv(flags, ret) => flags & MSG_PEEK_OR_ERRQUEUE == 0 && ret > 0
  }

  type Cells = map<FlowKey, seq<FlowValue>>

  /** One hook run: on CPU `cpu` at time `now` in process `pid`. `admitted` is whether
      the map takes a new key, should the run need to insert one. */
  datatype Run = Run(cpu: nat, sk: Option<Sock>, cgroup: nat, call: Call, now: nat, pid: nat, admitted: bool)

  function Fresh(cpus: nat, run: Run): seq<FlowValue>
    requires run.cpu < cpus && run.sk.Some?
  {
    var zero := EMPTY.(startNs := run.now, lastNs := run.now, pid := run.pid, ifindex := run.sk.value.boundIf);
    seq(cpus, i => EMPTY)[run.cpu := zero]
  }

  function Updated(v: FlowValue, run: Run): FlowValue
    requires run.sk.Some?
  {
    var a := Amounts(run.call);
    if run.call.SetState? then v.(lastNs := run.now, state := run.call.newState)
    else FlowValue(
      v.txBytes + a[0], v.rxBytes + a[1], v.txCalls + a[2], v.rxCalls + a[3], v.connections + a[4],
      OrElse(v.startNs, run.now), run.now, OrElse(v.pid, run.pid), OrElse(v.ifindex, run.sk.value.boundIf), v.state)
  }

  /** The effect of one hook run on the map. */
  function HookStep(cpus: nat, cells: Cells, run: Run): Cells
    requires run.cpu < cpus && forall k :: k in cells ==> |cells[k]| == cpus
  {
    var key := FillKey(run.call, run.sk, run.cgroup);
    if key.None? || !(Accounts(run.call) || run.call.SetState?) then cells
    else if key.value in cells then
      var cell := cells[key.value];
      cells[key.value := cell[run.cpu := Updated(cell[run.cpu], run)]]
    else if run.call.SetState? || !run.admitted then cells
    else
      var cell := Fresh(cpus, run);
      cells[key.value := cell[run.cpu := Updated(cell[run.cpu], run)]]
  }

  /** How `account_tcp_flow` updates the value it found. */
  method AddCall(v: FlowValue, run: Run, txBytes: nat, rxBytes: nat, txCalls: nat, rxCalls: nat, connections: nat)
    returns (value: FlowValue)
    requires run.sk.Some? && !run.call.SetState?
    requires Amounts(run.call) == [txBytes, rxBytes, txCalls, rxCalls, connections]
    ensures value == Updated(v, run)
  {
    value := v;
    value := value.(txBytes := value.txBytes + txBytes);
    value := value.(rxBytes := value.rxBytes + rxBytes);
    value := value.(txCalls := value.txCalls + txCalls);
    value := value.(rxCalls := value.rxCalls + rxCalls);
    value := value.(connections := value.connections + connections);
    if value.startNs == 0 {
      value := value.(startNs := run.now);
    }
    value := value.(lastNs := run.now);
    if value.pid == 0 {
      value := value.(pid := run.pid);
    }
    if value.ifindex == 0 {
      value := value.(ifindex := run.sk.value.boundIf);
    }
  }

  /** The map object with the hook programs as they are written. */
  class ChannelMap {
    const cpus: nat
    var cells: Cells

    ghost predicate Valid()
      reads this
    {
      forall k :: k in cells ==> |cells[k]| == cpus
    }

    constructor (cpus: nat)
      ensures Valid() && this.cpus == cpus && cells == map[]
    {
      this.cpus := cpus;
      cells := map[];
    }

    /** `account_tcp_flow`, and with zeroes for what UDP does not count, `account_udp_flow`.
        Its `state` argument is 0 at every call, so `state` is never set here. */
    method AccountFlow(run: Run, txBytes: nat, rxBytes: nat, txCalls: nat, rxCalls: nat, connections: nat)
      requires Valid() && run.cpu < cpus && !run.call.SetState? && Accounts(run.call)
      requires Amounts(run.call) == [txBytes, rxBytes, txCalls, rxCalls, connections]
      modifies this
      ensures Valid() && cells == HookStep(cpus, old(cells), run)
    {
      var filled := FillKey(run.call, run.sk, run.cgroup);
      if filled.None? {
        return;
      }
      var key := filled.value;
      if key !in cells {
        // bpf_map_update_elem(..., BPF_NOEXIST), then the second lookup
        if run.admitted {
          var zero := EMPTY.(startNs := run.now, lastNs := run.now, pid := run.pid, ifindex := run.sk.value.boundIf);
          cells := cells[key := seq(cpus, i => EMPTY)[run.cpu := zero]];
        }
        if key !in cells {
          return;
        }
      }
      var value := AddCall(cells[key][run.cpu], run, txBytes, rxBytes, txCalls, rxCalls, connections);
      cells := cells[key := cells[key][run.cpu := value]];
    }

    method UpdateTcpState(run: Run)
      requires Valid() && run.cpu < cpus && run.call.SetState?
      modifies this
      ensures Valid() && cells == HookStep(cpus, old(cells), run)
    {
      var filled := FillKey(run.call, run.sk, run.cgroup);
      if filled.Some? && filled.value in cells {
        var key := filled.value;
        var value := cells[key][run.cpu];
        value := value.(lastNs := run.now);
        value := value.(state := run.call.newState);
        cells := cells[key := cells[key][run.cpu := value]];
      }
    }

    /** The five attached programs. */
    method Hook(run: Run)
      requires Valid() && run.cpu < cpus
      modifies this
      ensures Valid() && cells == HookStep(cpus, old(cells), run)
    {
      match run.call {
        case Connect(ret) =>
          if ret == 0 {
            AccountFlow(run, 0, 0, 0, 0, 1);
          }
        case SendMsg(ret) =>
          if ret > 0 {
            AccountFlow(run, ret, 0, 1, 0, 0);
          }
        case RecvMsg(ret) =>
          if ret > 0 {
            AccountFlow(run, 0, ret, 0, 1, 0);
          }
        case SetState(_) =>
          UpdateTcpState(run);
        case UdpRecv(flags, ret) =>
          if flags & MSG_PEEK_OR_ERRQUEUE != 0 {
            return;
          }
          if ret > 0 {
            AccountFlow(run, 0, ret, 0, 1, 0);
          }
      }
    }
  }
}
