/** From the bytes the kernel stores to the identity the collector counts by. */
module KeyParsing {
  import opened Wrappers
  import opened Bytes
  import opened StructCodec
  import opened CLayout
  import opened MapLayouts
  import Frames
  import ChannelHooks
  import opened Protocols

  datatype ParseError = NotAByte | TooShort | ZeroCookie | WrongProtocol

  /** `raw_bytes` of a list of numbers. */
  function RawBytes(raw: seq<int>): Result<seq<byte>, ParseError> {
    if forall i :: 0 <= i < |raw| ==> 0 <= raw[i] < 256
    then Ok(seq(|raw|, i requires 0 <= i < |raw| && 0 <= raw[i] < 256 => raw[i] as byte))
    else Err(NotAByte)
  }

  /** What bpftool prints for a byte string. */
  function Printed(b: seq<byte>): seq<int> {
    seq(|b|, i requires 0 <= i < |b| => b[i] as int)
  }

  lemma RawBytesOfPrinted(b: seq<byte>)
    ensures RawBytes(Printed(b)) == Ok(b)
  {
    var raw := Printed(b);
    assert forall i :: 0 <= i < |raw| ==> 0 <= raw[i] < 256;
    assert RawBytes(raw).value == b;
  }

  /** `struct.unpack` of the first `size` bytes. */
  function UnpackRaw(fmt: Format, raw: seq<int>): Result<seq<nat>, ParseError> {
    match RawBytes(raw)
    case Err(e) => Err(e)
    case Ok(b) => if |b| < Width(fmt) then Err(TooShort) else Ok(Unpack(fmt, b[..Width(fmt)]))
  }

  const UDP_KEY_FORMAT := ParseFormat("BBHH2xIII", 0)
  const CHANNEL_KEY_FORMAT := ParseFormat("QIIHHBB2xQ", 0)

  /** `parse_bpftool_key` for a raw key. */
  function ParseUdpKey(raw: seq<int>): Result<Frames.UdpKey, ParseError> {
    match UnpackRaw(UDP_KEY_FORMAT, raw)
    case Err(e) => Err(e)
    case Ok(v) =>
      if |v| == 7 then Ok(Frames.UdpKey(v[0], v[1], v[2], v[3], v[4], v[5], v[6])) else Err(TooShort)
  }

  /** `validate_tcp_flow_key` and `validate_udp_flow_key`. */
  function Validated(proto: nat, k: ChannelHooks.FlowKey): (r: Result<ChannelHooks.FlowKey, ParseError>)
    ensures r == Ok(k) <==> k.socketCookie > 0 && k.family == 2 && k.ipProto == proto
    ensures r.Ok? ==> r.value == k
  {
    if k.socketCookie <= 0 then Err(ZeroCookie)
    else if k.family != AF_INET || k.ipProto != proto then Err(WrongProtocol)
    else Ok(k)
  }

  /** `parse_tcp_flow_key` and `parse_udp_flow_key` for a raw key. */
  function ParseChannelKey(proto: nat, raw: seq<int>): Result<ChannelHooks.FlowKey, ParseError> {
    match UnpackRaw(CHANNEL_KEY_FORMAT, raw)
    case Err(e) => Err(e)
    case Ok(v) =>
      if |v| == 8 then Validated(proto, ChannelHooks.FlowKey(v[0], v[1], v[2], v[3], v[4], v[5], v[6], v[7]))
      else Err(TooShort)
  }

  /** `b` is the memory of a struct of `size` bytes with these members. */
  ghost predicate InMemory(b: seq<byte>, s: Struct, size: nat, values: seq<nat>) {
    |b| == size && InOrder(s, 0, size) && Image(b, s, values)
  }

  lemma UnpackMemory(b: seq<byte>, more: seq<byte>, s: Struct, size: nat, values: seq<nat>)
    requires InMemory(b, s, size, values)
    ensures UnpackRaw(FormatFrom(s, 0, size), Printed(b + more)) == Ok(Kept(s, values))
  {
    FormatWidth(s, 0, |b|);
    ReadsStruct(b, s, 0, values);
    assert b[0..] == b && (b + more)[..|b|] == b;
    RawBytesOfPrinted(b + more);
  }

  lemma UdpKeyKept(values: seq<nat>)
    requires |values| == 7
    ensures Kept(UDP_KEY, values) == values
  {
    KeptFirst(UDP_KEY, 7, values);
    assert values[..7] == values && values[7..] == [];
  }

  lemma ChannelKeyKept(values: seq<nat>)
    requires |values| == 9
    ensures Kept(CHANNEL_KEY, values) == values[..7] + [values[8]]
  {
    KeptFirst(CHANNEL_KEY, 7, values);
    var last := Member(24, 8, true, Empty);
    assert Beyond(CHANNEL_KEY, 7) == Member(22, 2, false, last);
    assert values[7..][1..] == [values[8]] && [values[8]][1..] == [];
    assert Kept(last, [values[8]]) == [values[8]];
  }

  /** The kernel's memory for an ingress key parses to that very key, whatever is in its
      padding hole, and whatever follows it. */
  lemma UdpKeyFromMemory(b: seq<byte>, more: seq<byte>, k: Frames.UdpKey)
    requires InMemory(b, UDP_KEY, 20, [k.family, k.ipProto, k.srcPort, k.dstPort, k.ifindex, k.srcIp4, k.dstIp4])
    ensures ParseUdpKey(Printed(b + more)) == Ok(k)
  {
    var values := [k.family, k.ipProto, k.srcPort, k.dstPort, k.ifindex, k.srcIp4, k.dstIp4];
    UdpKeyLayout();
    UnpackMemory(b, more, UDP_KEY, 20, values);
    UdpKeyKept(values);
  }

  lemma ChannelMemoryUnpacks(b: seq<byte>, more: seq<byte>, values: seq<nat>)
    requires |values| == 9 && InMemory(b, CHANNEL_KEY, 32, values)
    ensures UnpackRaw(CHANNEL_KEY_FORMAT, Printed(b + more)) == Ok(values[..7] + [values[8]])
  {
    ChannelKeyLayout();
    UnpackMemory(b, more, CHANNEL_KEY, 32, values);
    ChannelKeyKept(values);
  }

  /** The members of a channel key in declaration order. */
  function ChannelWords(k: ChannelHooks.FlowKey, pad: nat): seq<nat> {
    [k.socketCookie, k.srcIp4, k.dstIp4, k.srcPort, k.dstPort, k.family, k.ipProto, pad, k.cgroupId]
  }

  /** The kernel's memory for a channel key, whatever its pad holds, parses to that key
      if and only if the key is one that the hooks of the protocol write. */
  lemma ChannelKeyFromMemory(b: seq<byte>, more: seq<byte>, k: ChannelHooks.FlowKey, pad: nat, proto: nat)
    requires InMemory(b, CHANNEL_KEY, 32, ChannelWords(k, pad))
    ensures ParseChannelKey(proto, Printed(b + more)) == Ok(k) <==> ChannelHooks.ValidKey(proto, k)
    ensures ParseChannelKey(proto, Printed(b + more)).Err? <==> !ChannelHooks.ValidKey(proto, k)
  {
    ChannelMemoryUnpacks(b, more, ChannelWords(k, pad));
  }

  lemma ShortOrNoBytes(fmt: Format, raw: seq<int>)
    ensures |raw| < Width(fmt) ==> UnpackRaw(fmt, raw).Err?
    ensures (exists i :: 0 <= i < |raw| && !(0 <= raw[i] < 256)) ==> UnpackRaw(fmt, raw) == Err(NotAByte)
  {
  }

  lemma UdpKeyWidth()
    ensures Width(UDP_KEY_FORMAT) == 20
  {
    UdpKeyLayout();
    FormatWidth(UDP_KEY, 0, 20);
  }

  lemma ChannelKeyWidth()
    ensures Width(CHANNEL_KEY_FORMAT) == 32
  {
    ChannelKeyLayout();
    FormatWidth(CHANNEL_KEY, 0, 32);
  }

  /** Fewer bytes than the struct has are refused, as is anything that is no byte. */
  lemma ShortKeysAreRefused(raw: seq<int>, proto: nat)
    ensures |raw| < 20 ==> ParseUdpKey(raw).Err?
    ensures |raw| < 32 ==> ParseChannelKey(proto, raw).Err?
    ensures (exists i :: 0 <= i < |raw| && !(0 <= raw[i] < 256)) ==>
              ParseUdpKey(raw) == Err(NotAByte) && ParseChannelKey(proto, raw) == Err(NotAByte)
  {
    UdpKeyWidth();
    ChannelKeyWidth();
    ShortOrNoBytes(UDP_KEY_FORMAT, raw);
    ShortOrNoBytes(CHANNEL_KEY_FORMAT, raw);
  }

  /** What the kernel's memset guarantees: two zero-padded raw ingress keys are one map
      entry exactly if they are one flow. */
  lemma OneFlowOneEntry(a: seq<byte>, b: seq<byte>)
    requires |a| == |b| == Width(UDP_KEY_FORMAT)
    requires ZeroPads(UDP_KEY_FORMAT, a) && ZeroPads(UDP_KEY_FORMAT, b)
    ensures a == b <==> Unpack(UDP_KEY_FORMAT, a) == Unpack(UDP_KEY_FORMAT, b)
  {
    ZeroPaddedKeyIsUnique(UDP_KEY_FORMAT, a, b);
  }
}
