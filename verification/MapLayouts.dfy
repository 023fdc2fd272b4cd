/** The key and value structs shared by the BPF programs and the collectors. */
module MapLayouts {
  import opened StructCodec
  import opened CLayout

  // ------------------------------------------------------------ format strings

  function CodeSize(c: char): nat {
    if c == 'B' then 1 else if c == 'H' then 2 else if c == 'I' then 4 else if c == 'Q' then 8 else 0
  }

  function Repeated(size: nat, n: nat, rest: Format): Format {
    if n == 0 then rest else UInt(size, Repeated(size, n - 1, rest))
  }

  /** The format a string describes after its '<'; `count` is the repeat count read so
      far, 0 for none. */
  function ParseFormat(s: string, count: nat): Format {
    if s == "" then Done
    else if '0' <= s[0] <= '9' then ParseFormat(s[1..], 10 * count + (s[0] as nat - '0' as nat))
    else
      var n := if count == 0 then 1 else count;
      var rest := ParseFormat(s[1..], 0);
      if s[0] == 'x' then Pad(n, rest) else Repeated(CodeSize(s[0]), n, rest)
  }

  // ------------------------------------------------------------ C declarations

  /** `struct udp_key` */
  const UDP_KEY :=
    Member(0, 1, true, Member(1, 1, true, Member(2, 2, true, Member(4, 2, true,
    Member(8, 4, true, Member(12, 4, true, Member(16, 4, true, Empty)))))))

  /** `struct udp_counters` */
  const UDP_COUNTERS :=
    Member(0, 8, true, Member(8, 8, true, Empty))

  /** `struct delivered_key`, with its explicit pad */
  const DELIVERED_KEY :=
    Member(0, 8, true, Member(8, 4, true, Member(12, 4, true, Member(16, 2, true,
    Member(18, 2, true, Member(20, 1, true, Member(21, 1, true, Member(22, 2, false, Empty))))))))

  /** `struct delivered_value`, with its explicit pad */
  const DELIVERED_VALUE :=
    Member(0, 8, true, Member(8, 8, true, Member(16, 8, true, Member(24, 4, true,
    Member(28, 4, false, Empty)))))

  /** `struct tcp_channel_key` and `struct udp_channel_key`, with their explicit pad */
  const CHANNEL_KEY :=
    Member(0, 8, true, Member(8, 4, true, Member(12, 4, true, Member(16, 2, true,
    Member(18, 2, true, Member(20, 1, true, Member(21, 1, true, Member(22, 2, false,
    Member(24, 8, true, Empty)))))))))

  /** `struct tcp_channel_value` and `struct udp_channel_value`; the reader unpacks the pad too */
  const CHANNEL_VALUE :=
    Member(0, 8, true, Member(8, 8, true, Member(16, 8, true, Member(24, 8, true,
    Member(32, 8, true, Member(40, 8, true, Member(48, 8, true, Member(56, 4, true,
    Member(60, 4, true, Member(64, 4, true, Member(68, 4, true, Empty)))))))))))

  // -------------------------------- the collectors' formats are the structs' layouts

  lemma UdpKeyLayout()
    ensures NaturallyAligned(UDP_KEY, 0) && IsSizeOf(20, UDP_KEY)
    ensures InOrder(UDP_KEY, 0, 20) && ParseFormat("BBHH2xIII", 0) == FormatFrom(UDP_KEY, 0, 20)
  {
    AlignedIsInOrder(UDP_KEY, 0, 20);
  }

  lemma UdpCountersLayout()
    ensures NaturallyAligned(UDP_COUNTERS, 0) && IsSizeOf(16, UDP_COUNTERS)
    ensures InOrder(UDP_COUNTERS, 0, 16) && ParseFormat("QQ", 0) == FormatFrom(UDP_COUNTERS, 0, 16)
  {
    AlignedIsInOrder(UDP_COUNTERS, 0, 16);
  }

  lemma DeliveredKeyLayout()
    ensures NaturallyAligned(DELIVERED_KEY, 0) && IsSizeOf(24, DELIVERED_KEY)
    ensures InOrder(DELIVERED_KEY, 0, 24) && ParseFormat("QIIHHBB2x", 0) == FormatFrom(DELIVERED_KEY, 0, 24)
  {
    AlignedIsInOrder(DELIVERED_KEY, 0, 24);
    DeliveredKeyFormat();
  }

  lemma DeliveredKeyFormat()
    ensures ParseFormat("QIIHHBB2x", 0) == UInt(8, UInt(4, UInt(4, UInt(2, UInt(2, UInt(1, UInt(1, Pad(2, Done))))))))
  {
    assert ParseFormat("BB2x", 0) == UInt(1, UInt(1, Pad(2, Done)));
    assert ParseFormat("IHHBB2x", 0) == UInt(4, UInt(2, UInt(2, UInt(1, UInt(1, Pad(2, Done))))));
  }

  lemma DeliveredValueLayout()
    ensures NaturallyAligned(DELIVERED_VALUE, 0) && IsSizeOf(32, DELIVERED_VALUE)
    ensures InOrder(DELIVERED_VALUE, 0, 32) && ParseFormat("QQQI4x", 0) == FormatFrom(DELIVERED_VALUE, 0, 32)
  {
    AlignedIsInOrder(DELIVERED_VALUE, 0, 32);
  }

  lemma ChannelKeyLayout()
    ensures NaturallyAligned(CHANNEL_KEY, 0) && IsSizeOf(32, CHANNEL_KEY)
    ensures InOrder(CHANNEL_KEY, 0, 32) && ParseFormat("QIIHHBB2xQ", 0) == FormatFrom(CHANNEL_KEY, 0, 32)
  {
    AlignedIsInOrder(CHANNEL_KEY, 0, 32);
    ChannelKeyFormat();
  }

  lemma ChannelKeyFormat()
    ensures ParseFormat("QIIHHBB2xQ", 0) ==
            UInt(8, UInt(4, UInt(4, UInt(2, UInt(2, UInt(1, UInt(1, Pad(2, UInt(8, Done)))))))))
  {
    assert ParseFormat("BB2xQ", 0) == UInt(1, UInt(1, Pad(2, UInt(8, Done))));
    assert ParseFormat("IHHBB2xQ", 0) == UInt(4, UInt(2, UInt(2, UInt(1, UInt(1, Pad(2, UInt(8, Done)))))));
  }

  lemma ChannelValueLayout()
    ensures NaturallyAligned(CHANNEL_VALUE, 0) && IsSizeOf(72, CHANNEL_VALUE)
    ensures InOrder(CHANNEL_VALUE, 0, 72) && ParseFormat("QQQQQQQIIII", 0) == FormatFrom(CHANNEL_VALUE, 0, 72)
  {
    AlignedIsInOrder(CHANNEL_VALUE, 0, 72);
    assert ParseFormat("QQQQIIII", 0) == UInt(8, UInt(8, UInt(8, UInt(8, UInt(4, UInt(4, UInt(4, UInt(4, Done))))))));
  }
}
