/** The other parsers: from the bytes of a delivered key and of one CPU's values to what the
    collectors add up. */
module ValueParsing {
  import opened Wrappers
  import opened Bytes
  import opened StructCodec
  import opened CLayout
  import opened MapLayouts
  import opened KeyParsing
  import PerCpuValue
  import IngressMap
  import DeliveryMap

  const COUNTERS_FORMAT := ParseFormat("QQ", 0)
  const DELIVERED_KEY_FORMAT := ParseFormat("QIIHHBB2x", 0)
  const DELIVERED_CELL_FORMAT := ParseFormat("QQQI4x", 0)
  const FLOW_VALUE_FORMAT := ParseFormat("QQQQQQQIIII", 0)

  /** `parse_bpftool_counters` of one CPU's raw value. */
  function ParseCounters(raw: seq<int>): Result<IngressMap.Cell, ParseError> {
    match UnpackRaw(COUNTERS_FORMAT, raw)
    case Err(e) => Err(e)
    case Ok(v) => if |v| == 2 then Ok(IngressMap.Cell(v[0], v[1])) else Err(TooShort)
  }

  /** `parse_bpftool_delivered_key` for a raw key. */
  function ParseDeliveredKey(raw: seq<int>): Result<DeliveryMap.DeliveredKey, ParseError> {
    match UnpackRaw(DELIVERED_KEY_FORMAT, raw)
    case Err(e) => Err(e)
    case Ok(v) =>
      if |v| == 7 then Ok(DeliveryMap.DeliveredKey(v[0], v[1], v[2], v[3], v[4], v[5], v[6])) else Err(TooShort)
  }

  /** `parse_bpftool_delivered_value` of one CPU's raw value. */
  function ParseDeliveredCell(raw: seq<int>): Result<DeliveryMap.Cell, ParseError> {
    match UnpackRaw(DELIVERED_CELL_FORMAT, raw)
    case Err(e) => Err(e)
    case Ok(v) => if |v| == 4 then Ok(DeliveryMap.Cell(v[0], v[1], v[2], v[3])) else Err(TooShort)
  }

  /** `parse_tcp_flow_value` and `parse_udp_flow_value` of one CPU's raw value. */
  function ParseFlowValue(raw: seq<int>): Result<PerCpuValue.FlowValue, ParseError> {
    match UnpackRaw(FLOW_VALUE_FORMAT, raw)
    case Err(e) => Err(e)
    case Ok(v) =>
      if |v| == 11 then Ok(PerCpuValue.FlowValue(v[0], v[1], v[2], v[3], v[4], v[5], v[6], v[7], v[8], v[9]))
      else Err(TooShort)
  }

  /** The struct's first `n` members are kept, and what follows is one member that is not, or
      nothing. */
  lemma KeptPrefix(s: Struct, n: nat, values: seq<nat>)
    requires KeepsFirst(s, n) && n <= |values| <= n + 1
    requires Beyond(s, n).Empty? || (!Beyond(s, n).kept && Beyond(s, n).rest.Empty?)
    ensures Kept(s, values) == values[..n]
  {
    KeptFirst(s, n, values);
    assert Kept(Beyond(s, n), values[n..]) == [];
  }

  lemma CountersKept(values: seq<nat>)
    requires |values| == 2
    ensures Kept(UDP_COUNTERS, values) == values[..2]
  {
    KeptPrefix(UDP_COUNTERS, 2, values);
  }

  lemma CountersUnpacks(b: seq<byte>, more: seq<byte>, values: seq<nat>)
    requires |values| == 2 && InMemory(b, UDP_COUNTERS, 16, values)
    ensures UnpackRaw(COUNTERS_FORMAT, Printed(b + more)) == Ok(values[..2])
  {
    UdpCountersLayout();
    UnpackMemory(b, more, UDP_COUNTERS, 16, values);
    CountersKept(values);
  }

  lemma DeliveredKeyKept(values: seq<nat>)
    requires |values| == 8
    ensures Kept(DELIVERED_KEY, values) == values[..7]
  {
    KeptPrefix(DELIVERED_KEY, 7, values);
  }

  lemma DeliveredKeyUnpacks(b: seq<byte>, more: seq<byte>, values: seq<nat>)
    requires |values| == 8 && InMemory(b, DELIVERED_KEY, 24, values)
    ensures UnpackRaw(DELIVERED_KEY_FORMAT, Printed(b + more)) == Ok(values[..7])
  {
    DeliveredKeyLayout();
    UnpackMemory(b, more, DELIVERED_KEY, 24, values);
    DeliveredKeyKept(values);
  }

  lemma DeliveredCellKept(values: seq<nat>)
    requires |values| == 5
    ensures Kept(DELIVERED_VALUE, values) == values[..4]
  {
    KeptPrefix(DELIVERED_VALUE, 4, values);
  }

  lemma DeliveredCellUnpacks(b: seq<byte>, more: seq<byte>, values: seq<nat>)
    requires |values| == 5 && InMemory(b, DELIVERED_VALUE, 32, values)
    ensures UnpackRaw(DELIVERED_CELL_FORMAT, Printed(b + more)) == Ok(values[..4])
  {
    DeliveredValueLayout();
    UnpackMemory(b, more, DELIVERED_VALUE, 32, values);
    DeliveredCellKept(values);
  }

  lemma FlowValueKept(values: seq<nat>)
    requires |values| == 11
    ensures Kept(CHANNEL_VALUE, values) == values[..11]
  {
    KeptPrefix(CHANNEL_VALUE, 11, values);
  }

  lemma FlowValueUnpacks(b: seq<byte>, more: seq<byte>, values: seq<nat>)
    requires |values| == 11 && InMemory(b, CHANNEL_VALUE, 72, values)
    ensures UnpackRaw(FLOW_VALUE_FORMAT, Printed(b + more)) == Ok(values[..11])
  {
    ChannelValueLayout();
    UnpackMemory(b, more, CHANNEL_VALUE, 72, values);
    FlowValueKept(values);
  }

  /** Each parser gives back the very members that the kernel's memory holds, in the order in
      which the struct declares them, whatever the pads hold and whatever follows. */
  lemma CountersFromMemory(b: seq<byte>, more: seq<byte>, c: IngressMap.Cell)
    requires InMemory(b, UDP_COUNTERS, 16, [c.packets, c.bytes])
    ensures ParseCounters(Printed(b + more)) == Ok(c)
  {
    CountersUnpacks(b, more, [c.packets, c.bytes]);
  }

  function DeliveredKeyWords(k: DeliveryMap.DeliveredKey, pad: nat): seq<nat> {
    [k.socketCookie, k.srcIp4, k.dstIp4, k.srcPort, k.dstPort, k.family, k.ipProto, pad]
  }

  lemma DeliveredKeyFromMemory(b: seq<byte>, more: seq<byte>, k: DeliveryMap.DeliveredKey, pad: nat)
    requires InMemory(b, DELIVERED_KEY, 24, DeliveredKeyWords(k, pad))
    ensures ParseDeliveredKey(Printed(b + more)) == Ok(k)
  {
    DeliveredKeyUnpacks(b, more, DeliveredKeyWords(k, pad));
  }

  lemma DeliveredCellFromMemory(b: seq<byte>, more: seq<byte>, c: DeliveryMap.Cell, pad: nat)
    requires InMemory(b, DELIVERED_VALUE, 32, [c.packets, c.bytes, c.inode, c.ifindex, pad])
    ensures ParseDeliveredCell(Printed(b + more)) == Ok(c)
  {
    DeliveredCellUnpacks(b, more, [c.packets, c.bytes, c.inode, c.ifindex, pad]);
  }

  function FlowWords(v: PerCpuValue.FlowValue, pad: nat): seq<nat> {
    [v.txBytes, v.rxBytes, v.txCalls, v.rxCalls, v.connections, v.startNs, v.lastNs, v.pid, v.ifindex, v.state, pad]
  }

  lemma FlowValueFromMemory(b: seq<byte>, more: seq<byte>, v: PerCpuValue.FlowValue, pad: nat)
    requires InMemory(b, CHANNEL_VALUE, 72, FlowWords(v, pad))
    ensures ParseFlowValue(Printed(b + more)) == Ok(v)
  {
    FlowValueUnpacks(b, more, FlowWords(v, pad));
  }
}
