/** How `udp_ingress` reads a frame: which frames are accounted, under which key and
    with how many payload bytes, and for which reason the others are dropped. */
module Frames {
  import opened Bytes
  import opened Protocols

  datatype UdpKey = UdpKey(
    family: nat, ipProto: nat, srcPort: nat, dstPort: nat, ifindex: nat, srcIp4: nat, dstIp4: nat)

  datatype Reason = EthBounds | NotIp | IpBounds | NotUdp | IhlShort | UdpBounds | PullFail | MapFull

  datatype Verdict = Drop(reason: Reason) | Account(key: UdpKey, payload: nat)

  /** A packet at the tc hook. The whole frame is `frame`; its first `inHead` bytes lie in
      the linear part and the rest in pages. `refused` is whether the kernel refuses a
      pull that the frame is long enough for. */
  datatype Skb = Skb(ifindex: nat, frame: seq<byte>, inHead: nat, refused: bool)

  const ETH_HEADER: nat := 14
  const IP_HEADER: nat := 20
  const UDP_HEADER: nat := 8
  const ETH_P_IP: nat := 0x0800
  const MAX_PAYLOAD: nat := 65527

  /** UDP_HEADERS_BYTES: Ethernet, the longest IPv4 header there is, UDP. */
  const PULLED: nat := 82

  function Be16(b: seq<byte>, at: nat): (r: nat)
    requires at + 2 <= |b|
    ensures r < 65536
  {
    b[at] as nat * 256 + b[at + 1] as nat
  }

  /** A 32-bit load on a little-endian machine. */
  function Le32(b: seq<byte>, at: nat): nat
    requires at + 4 <= |b|
  {
    b[at] as nat + 256 * (b[at + 1] as nat) + 65536 * (b[at + 2] as nat) + 16777216 * (b[at + 3] as nat)
  }

  /** `bpf_skb_pull_data` makes the first 82 bytes linear. It always fails on a frame that
      does not have them. */
  predicate PullFails(skb: Skb) {
    |skb.frame| < PULLED || skb.refused
  }

  /** `data..data_end` after the pull: what was linear before, and at least 82 bytes. */
  function Linear(skb: Skb): (b: seq<byte>)
    requires !PullFails(skb)
    ensures PULLED <= |b| && b <= skb.frame
  {
    if skb.inHead <= PULLED then skb.frame[..PULLED]
    else if skb.inHead <= |skb.frame| then skb.frame[..skb.inHead]
    else skb.frame
  }

  /** The header checks of `account_udp4` on the bytes `b`, in their order. */
  function ClassifyLinear(ifindex: nat, b: seq<byte>): (v: Verdict)
    ensures v.Account? ==> v.payload <= MAX_PAYLOAD
    ensures v.Drop? ==> v.reason != MapFull && v.reason != PullFail
  {
    if |b| < ETH_HEADER then Drop(EthBounds)
    else if Be16(b, 12) != ETH_P_IP then Drop(NotIp)
    else if |b| < ETH_HEADER + IP_HEADER then Drop(IpBounds)
    else if b[ETH_HEADER + 9] as nat != IPPROTO_UDP then Drop(NotUdp)
    else
      var ipHeaderBytes := (b[ETH_HEADER] as nat % 16) * 4;
      if ipHeaderBytes < IP_HEADER then Drop(IhlShort)
      else
        var udp := ETH_HEADER + ipHeaderBytes;
        if |b| < udp + UDP_HEADER then Drop(UdpBounds)
        else
          var udpLen := Be16(b, udp + 4);
          Account(
            UdpKey(AF_INET, IPPROTO_UDP, Be16(b, udp), Be16(b, udp + 2), ifindex,
                   Le32(b, ETH_HEADER + 12), Le32(b, ETH_HEADER + 16)),
            PayloadOf(udpLen))
  }

  function PayloadOf(udpLen: nat): nat {
    if udpLen >= UDP_HEADER then udpLen - UDP_HEADER else 0
  }

  /** `udp_ingress`: the pull, then the checks. */
  function Classify(skb: Skb): (v: Verdict)
    ensures v.Account? ==> v.payload <= MAX_PAYLOAD
    ensures v.Drop? ==> v.reason != MapFull
    ensures v == Drop(PullFail) <==> PullFails(skb)
  {
    if PullFails(skb) then Drop(PullFail) else ClassifyLinear(skb.ifindex, Linear(skb))
  }

  // ------------------------------------------------------- which frames are accounted

  /** The EtherType is 0x0800. */
  predicate IsIp(b: seq<byte>) {
    |b| >= 82 && b[12] == 8 && b[13] == 0
  }

  /** The protocol is 17. */
  predicate IsUdp(b: seq<byte>) {
    IsIp(b) && b[23] == 17
  }

  /** The IPv4 header says that it is at least as long as it must be. */
  predicate HasHeader(b: seq<byte>) {
    IsUdp(b) && b[14] as nat % 16 >= 5
  }

  /** What becomes of a frame, read off the whole frame: it is accounted if and only if the
      pull succeeds and it is UDP over IPv4 with a sound header length; each other frame
      has the one reason that comes first; and once the pull has succeeded, no bounds
      check can fail. */
  lemma VerdictIff(skb: Skb)
    ensures var v := Classify(skb);
            && (v.Account? <==> !PullFails(skb) && HasHeader(skb.frame))
            && (v == Drop(NotIp) <==> !PullFails(skb) && !IsIp(skb.frame))
            && (v == Drop(NotUdp) <==> !PullFails(skb) && IsIp(skb.frame) && !IsUdp(skb.frame))
            && (v == Drop(IhlShort) <==> !PullFails(skb) && IsUdp(skb.frame) && !HasHeader(skb.frame))
            && v != Drop(EthBounds) && v != Drop(IpBounds) && v != Drop(UdpBounds)
  {
    if !PullFails(skb) {
      var b := Linear(skb);
      assert b[12] == skb.frame[12] && b[13] == skb.frame[13] && b[14] == skb.frame[14] && b[23] == skb.frame[23];
    }
  }

  /** A longer linear part than the pulled one changes no verdict. */
  lemma SamePrefixSameVerdict(ifindex: nat, b: seq<byte>, frame: seq<byte>)
    requires PULLED <= |b| && b <= frame
    ensures ClassifyLinear(ifindex, b) == ClassifyLinear(ifindex, frame)
  {
    assert forall i :: 0 <= i < PULLED ==> b[i] == frame[i];
  }

  /** Where the driver put the bytes of a frame, in the linear part or in pages, makes no
      difference to its verdict, its key and its payload. */
  lemma PlacementDoesNotMatter(skb: Skb, inHead: nat)
    ensures Classify(skb.(inHead := inHead)) == Classify(skb)
  {
    if !PullFails(skb) {
      SamePrefixSameVerdict(skb.ifindex, Linear(skb), skb.frame);
      SamePrefixSameVerdict(skb.ifindex, Linear(skb.(inHead := inHead)), skb.frame);
    }
  }

  function PutBe16(v: nat): seq<byte>
    requires v < 65536
  {
    [(v / 256) as byte, (v % 256) as byte]
  }

  function PutLe32(v: nat): seq<byte>
    requires v < 0x1_0000_0000
  {
    [(v % 256) as byte, (v / 256 % 256) as byte, (v / 65536 % 256) as byte, (v / 16777216) as byte]
  }

  /** The Ethernet and IPv4 headers of a frame, as a sender writes them; `ip0` holds the
      bytes between the header length and the protocol. */
  datatype Headers = Headers(
    macs: seq<byte>, version: nat, ihl: nat, ip0: seq<byte>, checksum: seq<byte>, src: nat, dst: nat,
    options: seq<byte>)
  {
    predicate Valid() {
      && |macs| == 12 && version < 16 && 5 <= ihl < 16 && |ip0| == 8 && |checksum| == 2
      && src < 0x1_0000_0000 && dst < 0x1_0000_0000 && |options| == 4 * ihl - 20
    }

    /** The fragment offset, in units of 8 bytes. */
    function Offset(): nat
      requires Valid()
    {
      ip0[5] as nat % 32 * 256 + ip0[6] as nat
    }

    /** Where the data of the frame begins in its datagram. */
    function Start(): nat
      requires Valid()
    {
      8 * Offset()
    }

    /** Up to the options. */
    function Fixed(): seq<byte>
      requires Valid()
    {
      macs + PutBe16(ETH_P_IP) + [(version * 16 + ihl) as byte] + ip0 + [IPPROTO_UDP as byte] + checksum
      + PutLe32(src) + PutLe32(dst)
    }
  }

  /** A frame: the headers, and the data of the IPv4 packet. */
  function FrameOf(h: Headers, data: seq<byte>): seq<byte>
    requires h.Valid()
  {
    h.Fixed() + h.options + data
  }

  /** A UDP header up to its checksum. */
  function Ports(srcPort: nat, dstPort: nat, udpLen: nat): seq<byte>
    requires srcPort < 65536 && dstPort < 65536 && udpLen < 65536
  {
    PutBe16(srcPort) + PutBe16(dstPort) + PutBe16(udpLen)
  }

  lemma FourBytes(v: nat)
    requires v < 0x1_0000_0000
    ensures v % 256 + 256 * (v / 256 % 256) + 65536 * (v / 65536 % 256) + 16777216 * (v / 16777216) == v
  {
    var a := v / 256;
    var b := a / 256;
    assert v / 65536 == b && v / 16777216 == b / 256;
    assert v == 256 * a + v % 256 && a == 256 * b + a % 256 && b == 256 * (b / 256) + b % 256;
  }

  lemma Le32OfPut(b: seq<byte>, at: nat, v: nat)
    requires v < 0x1_0000_0000 && at + 4 <= |b| && b[at..at + 4] == PutLe32(v)
    ensures Le32(b, at) == v
  {
    var four := b[at..at + 4];
    assert b[at] == four[0] && b[at + 1] == four[1] && b[at + 2] == four[2] && b[at + 3] == four[3];
    FourBytes(v);
  }

  lemma Be16OfPut(b: seq<byte>, at: nat, v: nat)
    requires v < 65536 && at + 2 <= |b| && b[at] == PutBe16(v)[0] && b[at + 1] == PutBe16(v)[1]
    ensures Be16(b, at) == v
  {
    assert v == 256 * (v / 256) + v % 256;
  }

  /** The IPv4 header of a frame reads as it was put there. */
  lemma IpHeaderReads(b: seq<byte>, h: Headers)
    requires h.Valid() && |b| >= 34 && b[..34] == h.Fixed()
    ensures Be16(b, 12) == ETH_P_IP && b[14] as nat % 16 == h.ihl && b[23] as nat == IPPROTO_UDP
    ensures Le32(b, 26) == h.src && Le32(b, 30) == h.dst
  {
    var ip := b[..34];
    assert b[12] == ip[12] && b[13] == ip[13];
    Be16OfPut(b, 12, ETH_P_IP);
    assert b[14] == ip[14] && b[23] == ip[23];
    Nibble(h.version, h.ihl);
    assert b[26..30] == ip[26..30] == PutLe32(h.src);
    assert b[30..34] == ip[30..34] == PutLe32(h.dst);
    Le32OfPut(b, 26, h.src);
    Le32OfPut(b, 30, h.dst);
  }

  lemma Nibble(version: nat, ihl: nat)
    requires version < 16 && ihl < 16
    ensures version * 16 + ihl < 256 && (version * 16 + ihl) % 16 == ihl
  {
  }

  lemma PortsRead(d: seq<byte>, srcPort: nat, dstPort: nat, udpLen: nat)
    requires srcPort < 65536 && dstPort < 65536 && udpLen < 65536
    requires Ports(srcPort, dstPort, udpLen) <= d
    ensures Be16(d, 0) == srcPort && Be16(d, 2) == dstPort && Be16(d, 4) == udpLen
  {
    var ports := Ports(srcPort, dstPort, udpLen);
    assert forall i :: 0 <= i < 6 ==> d[i] == ports[i];
    Be16OfPut(d, 0, srcPort);
    Be16OfPut(d, 2, dstPort);
    Be16OfPut(d, 4, udpLen);
  }

  /** What is accounted if the 6 bytes at `at` of `d` are taken for ports and length. */
  function AccountedAt(ifindex: nat, h: Headers, d: seq<byte>, at: nat): Verdict
    requires at + 6 <= |d|
  {
    var udpLen := 256 * (d[at + 4] as nat) + d[at + 5] as nat;
    Account(
      UdpKey(2, 17, 256 * (d[at] as nat) + d[at + 1] as nat, 256 * (d[at + 2] as nat) + d[at + 3] as nat, ifindex,
             h.src, h.dst),
      if udpLen < 8 then 0 else udpLen - 8)
  }

  lemma DataIsTakenForUdp(ifindex: nat, h: Headers, data: seq<byte>)
    requires h.Valid() && |data| >= 8
    ensures ClassifyLinear(ifindex, FrameOf(h, data)) == AccountedAt(ifindex, h, data, 0)
  {
    var b := FrameOf(h, data);
    var u := 14 + 4 * h.ihl;
    assert b[..34] == h.Fixed();
    IpHeaderReads(b, h);
    assert b[u..] == data;
    assert forall i :: 0 <= i < 6 ==> b[u + i] == b[u..][i];
  }

  /** A frame of a UDP packet is accounted if and only if it has the 82 bytes and the kernel
      does not refuse to pull them: then under its own addresses, and under the ports and
      the length at the start of its data, whatever its options and wherever its bytes lie.
      Otherwise the pull is what failed. */
  lemma FrameIsAccountedIff(ifindex: nat, inHead: nat, refused: bool, h: Headers, data: seq<byte>)
    requires h.Valid() && |data| >= 8
    ensures Classify(Skb(ifindex, FrameOf(h, data), inHead, refused)) ==
            if 14 + 4 * h.ihl + |data| >= 82 && !refused then AccountedAt(ifindex, h, data, 0) else Drop(PullFail)
  {
    var skb := Skb(ifindex, FrameOf(h, data), inHead, refused);
    DataIsTakenForUdp(ifindex, h, data);
    if !PullFails(skb) {
      SamePrefixSameVerdict(ifindex, Linear(skb), skb.frame);
    }
  }

  // -------------------------------------------------------------------------- datagrams

  /** A UDP datagram. */
  function Datagram(srcPort: nat, dstPort: nat, checksum: seq<byte>, payload: seq<byte>): seq<byte>
    requires srcPort < 65536 && dstPort < 65536 && |checksum| == 2 && |payload| <= MAX_PAYLOAD
  {
    Ports(srcPort, dstPort, 8 + |payload|) + checksum + payload
  }

  /** A datagram that is not fragmented, and not padded, is counted under its ports with its
      payload, unless its payload and IP options together are shorter than 40 bytes: then
      it goes uncounted, although it is as good a datagram as any. */
  lemma ShortDatagramsGoUncounted(
    ifindex: nat, inHead: nat, h: Headers, srcPort: nat, dstPort: nat, checksum: seq<byte>, payload: seq<byte>)
    requires h.Valid()
    requires srcPort < 65536 && dstPort < 65536 && |checksum| == 2 && |payload| <= MAX_PAYLOAD
    ensures Classify(Skb(ifindex, FrameOf(h, Datagram(srcPort, dstPort, checksum, payload)), inHead, false)) ==
            if |payload| + |h.options| < 40 then Drop(PullFail)
            else Account(UdpKey(2, 17, srcPort, dstPort, ifindex, h.src, h.dst), |payload|)
  {
    var d := Datagram(srcPort, dstPort, checksum, payload);
    FrameIsAccountedIff(ifindex, inHead, false, h, d);
    PortsRead(d, srcPort, dstPort, 8 + |payload|);
  }

  function Zeros(n: nat): (b: seq<byte>)
    ensures |b| == n
  {
    seq(n, i => 0)
  }

  /** For instance: 39 bytes from port 40000 to port 5000, all of them in the linear part. */
  lemma ADatagramOf39Bytes()
    ensures var h := Headers(Zeros(12), 4, 5, Zeros(8), Zeros(2), 1, 2, []);
            Classify(Skb(1, FrameOf(h, Datagram(40000, 5000, Zeros(2), Zeros(39))), 81, false)) == Drop(PullFail)
  {
    var h := Headers(Zeros(12), 4, 5, Zeros(8), Zeros(2), 1, 2, []);
    ShortDatagramsGoUncounted(1, 81, h, 40000, 5000, Zeros(2), Zeros(39));
  }

  // -------------------------------------------------------------------------- fragments

  /** The frame that carries `length` bytes of the datagram `d`, from the fragment offset
      that its header says. */
  function Fragment(h: Headers, d: seq<byte>, length: nat): seq<byte>
    requires h.Valid() && h.Start() + length <= |d|
  {
    FrameOf(h, Slice(d, h.Start(), length))
  }

  function Slice(d: seq<byte>, at: nat, length: nat): seq<byte>
    requires at + length <= |d|
  {
    d[at..at + length]
  }

  /** A fragment that is long enough to be pulled. */
  predicate Pulled(h: Headers, length: nat) {
    h.Valid() && 14 + 4 * h.ihl + length >= 82
  }

  /** Every pulled fragment of a UDP datagram is accounted, its offset unseen: under the
      ports and the length that happen to stand at the start of its own data. */
  lemma FragmentIsAccounted(ifindex: nat, inHead: nat, h: Headers, d: seq<byte>, length: nat)
    requires Pulled(h, length) && h.Start() + length <= |d|
    ensures Classify(Skb(ifindex, Fragment(h, d, length), inHead, false)) == AccountedAt(ifindex, h, d, h.Start())
  {
    SliceIsAccounted(ifindex, inHead, h, d, h.Start(), length);
  }

  lemma SliceIsAccounted(ifindex: nat, inHead: nat, h: Headers, d: seq<byte>, at: nat, length: nat)
    requires Pulled(h, length) && at + length <= |d|
    ensures Classify(Skb(ifindex, FrameOf(h, Slice(d, at, length)), inHead, false)) == AccountedAt(ifindex, h, d, at)
  {
    FrameIsAccountedIff(ifindex, inHead, false, h, Slice(d, at, length));
    SameSixBytes(ifindex, h, d, at, length);
  }

  lemma SameSixBytes(ifindex: nat, h: Headers, d: seq<byte>, at: nat, length: nat)
    requires length >= 6 && at + length <= |d|
    ensures AccountedAt(ifindex, h, Slice(d, at, length), 0) == AccountedAt(ifindex, h, d, at)
  {
    var data := Slice(d, at, length);
    SameBe16(data, d, 0, at);
    SameBe16(data, d, 2, at + 2);
    SameBe16(data, d, 4, at + 4);
  }

  lemma SameBe16(a: seq<byte>, b: seq<byte>, i: nat, j: nat)
    requires i + 2 <= |a| && j + 2 <= |b| && a[i] == b[j] && a[i + 1] == b[j + 1]
    ensures Be16(a, i) == Be16(b, j)
  {
  }

  /** The frame is accounted under the datagram's own ports and with its own length. */
  predicate AccountedAsItself(ifindex: nat, inHead: nat, h: Headers, d: seq<byte>, length: nat)
    requires Pulled(h, length) && h.Start() + length <= |d|
  {
    Classify(Skb(ifindex, Fragment(h, d, length), inHead, false)) == AccountedAt(ifindex, h, d, 0)
  }

  /** A datagram of zeros, but for one byte. */
  function Marked(size: nat, at: nat): (d: seq<byte>)
    ensures |d| == size
  {
    seq(size, i => if i == at then 1 else 0)
  }

  /** So a pulled frame is accounted as the datagram it belongs to, whatever the datagram
      says, if and only if its fragment offset is 0; in a later fragment bytes of the
      payload are taken for ports and length. */
  lemma AccountedAsItselfIff(ifindex: nat, inHead: nat, h: Headers, length: nat)
    requires Pulled(h, length)
    ensures (forall d: seq<byte> :: h.Start() + length <= |d| ==> AccountedAsItself(ifindex, inHead, h, d, length))
            <==> h.Offset() == 0
  {
    var at := h.Start();
    if at == 0 {
      forall d: seq<byte> | at + length <= |d| ensures AccountedAsItself(ifindex, inHead, h, d, length) {
        FragmentIsAccounted(ifindex, inHead, h, d, length);
      }
    } else {
      var d := Marked(at + length, at);
      FragmentIsAccounted(ifindex, inHead, h, d, length);
      assert Be16(d, at) == 256 && Be16(d, 0) == 0;
      assert !AccountedAsItself(ifindex, inHead, h, d, length);
    }
  }

  /** For instance: 200 bytes from the fragment offset 185 on, in which the letters ABCD
      happen to be followed by the number 100, are accounted under the ports 16706 and 17220
      with 92 bytes, although the datagram is from port 0 to port 0. */
  lemma ALaterFragment()
    ensures var h := Headers(Zeros(12), 4, 5, Zeros(6) + [185, 64], Zeros(2), 1, 2, []);
            var d := Zeros(1480) + [65, 66, 67, 68, 0, 100] + Zeros(194);
            && Pulled(h, 200) && h.Offset() == 185 && Be16(d, 0) == Be16(d, 2) == 0
            && Classify(Skb(1, Fragment(h, d, 200), 234, false)) ==
               Account(UdpKey(AF_INET, IPPROTO_UDP, 16706, 17220, 1, 1, 2), 92)
  {
    var h := Headers(Zeros(12), 4, 5, Zeros(6) + [185, 64], Zeros(2), 1, 2, []);
    var d := Zeros(1480) + [65, 66, 67, 68, 0, 100] + Zeros(194);
    FragmentIsAccounted(1, 234, h, d, 200);
    LettersThenANumber(d);
  }

  lemma LettersThenANumber(d: seq<byte>)
    requires d == Zeros(1480) + [65, 66, 67, 68, 0, 100] + Zeros(194)
    ensures |d| == 1680 && Be16(d, 0) == Be16(d, 2) == 0
    ensures Be16(d, 1480) == 16706 && Be16(d, 1482) == 17220 && Be16(d, 1484) == 100
  {
    assert d[1480] == 65 && d[1481] == 66 && d[1482] == 67 && d[1483] == 68 && d[1484] == 0 && d[1485] == 100;
  }
}
