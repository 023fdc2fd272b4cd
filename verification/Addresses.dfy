/** IPv4 addresses as the BPF maps store them and as /proc/net/udp prints them. */
module Addresses {
  import opened Wrappers
  import opened Bytes

  // --------------------------------------------------------------- dotted quads

  function Digit(d: nat): char
    requires d < 10
  {
    "0123456789"[d]
  }

  function Decimal(n: nat): string {
    if n < 10 then [Digit(n)] else Decimal(n / 10) + [Digit(n % 10)]
  }

  function Dotted(b: seq<byte>): string
    requires |b| == 4
  {
    Decimal(b[0] as nat) + "." + (Decimal(b[1] as nat) + "." + (Decimal(b[2] as nat) + "." + Decimal(b[3] as nat)))
  }

  function DecimalValue(s: string): nat {
    if s == "" then 0
    else
      var c := s[|s| - 1];
      10 * DecimalValue(s[..|s| - 1]) + if '0' <= c <= '9' then c as nat - '0' as nat else 0
  }

  lemma {:induction false} DecimalReadsBack(n: nat)
    ensures DecimalValue(Decimal(n)) == n && '.' !in Decimal(n) && ':' !in Decimal(n) && Decimal(n) != ""
  {
    if n < 10 {
      assert [Digit(n)][..0] == "";
      assert DecimalValue("") == 0;
    } else {
      DecimalReadsBack(n / 10);
      var s := Decimal(n);
      assert s[..|s| - 1] == Decimal(n / 10);
    }
  }

  /** Text up to the first separator is determined by the whole. */
  lemma SplitAtSeparator(a: string, x: string, b: string, y: string, sep: char)
    requires sep !in a && sep !in b && a + [sep] + x == b + [sep] + y
    ensures a == b && x == y
  {
    var whole := a + [sep] + x;
    assert whole[|a|] == sep && whole[|b|] == sep;
    assert forall i :: 0 <= i < |a| ==> whole[i] in a;
    assert forall i :: 0 <= i < |b| ==> whole[i] in b;
    assert a == whole[..|a|] && b == whole[..|b|];
    assert x == whole[|a| + 1..] && y == whole[|b| + 1..];
  }

  /** Dotted quads print bytes injectively. */
  lemma DottedIsInjective(a: seq<byte>, b: seq<byte>)
    requires |a| == |b| == 4
    ensures Dotted(a) == Dotted(b) <==> a == b
  {
    if Dotted(a) == Dotted(b) {
      forall i | 0 <= i < 4
        ensures DecimalValue(Decimal(a[i] as nat)) == a[i] as nat && '.' !in Decimal(a[i] as nat)
        ensures DecimalValue(Decimal(b[i] as nat)) == b[i] as nat && '.' !in Decimal(b[i] as nat)
      {
        DecimalReadsBack(a[i] as nat);
        DecimalReadsBack(b[i] as nat);
      }
      var a23 := Decimal(a[2] as nat) + "." + Decimal(a[3] as nat);
      var b23 := Decimal(b[2] as nat) + "." + Decimal(b[3] as nat);
      var a123, b123 := Decimal(a[1] as nat) + "." + a23, Decimal(b[1] as nat) + "." + b23;
      SplitAtSeparator(Decimal(a[0] as nat), a123, Decimal(b[0] as nat), b123, '.');
      SplitAtSeparator(Decimal(a[1] as nat), a23, Decimal(b[1] as nat), b23, '.');
      SplitAtSeparator(Decimal(a[2] as nat), Decimal(a[3] as nat), Decimal(b[2] as nat), Decimal(b[3] as nat), '.');
      assert a == [a[0], a[1], a[2], a[3]] && b == [b[0], b[1], b[2], b[3]];
    }
  }

  // ------------------------------------------------------------------ BPF integers

  /** `ipv4_from_bpf_int`: the little-endian bytes of the stored integer. */
  function FromBpfInt(v: nat): string {
    Dotted(Le(4, v))
  }

  lemma BpfIntPrintsInjectively(v: nat, w: nat)
    requires v < 0x1_0000_0000 && w < 0x1_0000_0000
    ensures FromBpfInt(v) == FromBpfInt(w) <==> v == w
  {
    DottedIsInjective(Le(4, v), Le(4, w));
    assert Pow256(4) == 0x1_0000_0000 by {
      assert Pow256(2) == 65536;
    }
    FromLeOfLe(4, v);
    FromLeOfLe(4, w);
  }

  // ----------------------------------------------------------------------- /proc

  function HexDigit(d: nat): char
    requires d < 16
  {
    "0123456789ABCDEF"[d]
  }

  function HexValue(c: char): Option<nat> {
    if '0' <= c <= '9' then Some(c as nat - '0' as nat)
    else if 'A' <= c <= 'F' then Some(c as nat - 'A' as nat + 10)
    else if 'a' <= c <= 'f' then Some(c as nat - 'a' as nat + 10)
    else None
  }

  /** The kernel's `%0nX`: the low `n` hex digits of `v`, most significant first. */
  function Hex(n: nat, v: nat): (s: string)
    ensures |s| == n
  {
    if n == 0 then "" else Hex(n - 1, v / 16) + [HexDigit(v % 16)]
  }

  /** The value of a possibly empty string of hex digits. */
  function HexInt(s: string): Option<nat> {
    if s == "" then Some(0)
    else
      match (HexInt(s[..|s| - 1]), HexValue(s[|s| - 1]))
      case (Some(h), Some(d)) => Some(16 * h + d)
      case _ => None
  }

  /** `int(s, 16)`: at least one digit. */
  function HexNumber(s: string): Option<nat> {
    if s == "" then None else HexInt(s)
  }

  /** `bytes.fromhex(s)[::-1]` */
  function ReversedHexBytes(s: string): Option<seq<byte>> {
    if s == "" then Some([])
    else if |s| == 1 then None
    else
      match (HexValue(s[|s| - 2]), HexValue(s[|s| - 1]), ReversedHexBytes(s[..|s| - 2]))
      case (Some(h), Some(l), Some(rest)) => if h < 16 && l < 16 then Some([(16 * h + l) as byte] + rest) else None
      case _ => None
  }

  lemma HexDigitReadsBack(d: nat)
    requires d < 16
    ensures HexValue(HexDigit(d)) == Some(d) && HexDigit(d) != ':'
  {
  }

  lemma {:induction false} HexReadsBack(n: nat, v: nat)
    ensures ':' !in Hex(n, v)
    ensures HexInt(Hex(n, v)).Some? && (v < Pow16(n) ==> HexInt(Hex(n, v)) == Some(v))
  {
    if n > 0 {
      HexReadsBack(n - 1, v / 16);
      HexDigitReadsBack(v % 16);
      HexEndsInADigit(n, v);
      assert v == 16 * (v / 16) + v % 16;
      if v < Pow16(n) {
        assert v / 16 < Pow16(n - 1);
      }
    }
  }

  function Pow16(n: nat): nat {
    if n == 0 then 1 else 16 * Pow16(n - 1)
  }

  lemma LastTwoDigits(t: string, h: nat, l: nat)
    requires h < 16 && l < 16
    ensures var s := t + [HexDigit(h), HexDigit(l)];
            ReversedHexBytes(s) == match ReversedHexBytes(t)
                                   case Some(rest) => Some([(16 * h + l) as byte] + rest)
                                   case None => None
  {
    var s := t + [HexDigit(h), HexDigit(l)];
    HexDigitReadsBack(h);
    HexDigitReadsBack(l);
    assert s[..|s| - 2] == t;
  }

  lemma TwoNibbles(v: nat)
    ensures v / 16 / 16 == v / 256 && 16 * (v / 16 % 16) + v % 16 == v % 256
  {
  }

  lemma HexEndsInAByte(n: nat, v: nat)
    requires n >= 2
    ensures Hex(n, v) == Hex(n - 2, v / 256) + [HexDigit(v / 16 % 16), HexDigit(v % 16)]
  {
    TwoNibbles(v);
    var t := Hex(n - 2, v / 16 / 16);
    HexEndsInADigit(n, v);
    HexEndsInADigit(n - 1, v / 16);
    assert t + [HexDigit(v / 16 % 16)] + [HexDigit(v % 16)] == t + [HexDigit(v / 16 % 16), HexDigit(v % 16)];
  }

  lemma HexEndsInADigit(n: nat, v: nat)
    requires n > 0
    ensures Hex(n, v) == Hex(n - 1, v / 16) + [HexDigit(v % 16)]
    ensures Hex(n, v)[..n - 1] == Hex(n - 1, v / 16) && Hex(n, v)[n - 1] == HexDigit(v % 16)
  {
  }

  /** Two hex digits are one byte: the printed integer, read as bytes and reversed, is
      its little-endian memory. */
  lemma {:induction false} HexIsBigEndian(n: nat, v: nat)
    ensures ReversedHexBytes(Hex(2 * n, v)) == Some(Le(n, v))
  {
    if n > 0 {
      HexIsBigEndian(n - 1, v / 256);
      HexEndsInAByte(2 * n, v);
      ReversedHexStep(Hex(2 * n, v), Hex(2 * n - 2, v / 256), v);
    }
  }

  /** Two digits more are one byte more, in front. */
  lemma ReversedHexStep(s: string, t: string, v: nat)
    requires s == t + [HexDigit(v / 16 % 16), HexDigit(v % 16)] && ReversedHexBytes(t).Some?
    ensures ReversedHexBytes(s) == Some([(v % 256) as byte] + ReversedHexBytes(t).value)
  {
    OneByteMore(s, t, v / 16 % 16, v % 16);
    TwoNibbles(v);
  }

  lemma OneByteMore(s: string, t: string, h: nat, l: nat)
    requires h < 16 && l < 16 && s == t + [HexDigit(h), HexDigit(l)] && ReversedHexBytes(t).Some?
    ensures ReversedHexBytes(s) == Some([(16 * h + l) as byte] + ReversedHexBytes(t).value)
  {
    LastTwoDigits(t, h, l);
  }

  /** The part before the first ':' and the part after it. */
  function SplitColon(s: string): Option<(string, string)> {
    if s == "" then None
    else if s[0] == ':' then Some(("", s[1..]))
    else
      match SplitColon(s[1..])
      case Some(p) => Some(([s[0]] + p.0, p.1))
      case None => None
  }

  lemma {:induction false} SplitColonFinds(a: string, b: string)
    requires ':' !in a
    ensures SplitColon(a + ":" + b) == Some((a, b))
  {
    var s := a + ":" + b;
    if a == "" {
      assert s[1..] == b;
    } else {
      assert s[1..] == a[1..] + ":" + b;
      SplitColonFinds(a[1..], b);
      assert [a[0]] + a[1..] == a;
    }
  }

  /** `parse_proc_address` of a "local_address" column. */
  function ParseProcAddress(value: string): Option<(string, nat)> {
    match SplitColon(value)
    case None => None
    case Some(p) =>
      match HexNumber(p.1)
      case None => None
      case Some(port) =>
        if |p.0| == 8 then
          match ReversedHexBytes(p.0)
          case Some(b) => if |b| == 4 then Some((Dotted(b), port)) else None
          case None => None
        else if |p.0| == 32 then Some((p.0[..8] + ":" + p.0[8..16] + ":" + p.0[16..24] + ":" + p.0[24..], port))
        else Some((p.0, port))
  }

  /** For every 32-bit value and port, the row the kernel prints in /proc and the integer
      a BPF map stores give the same address text. */
  lemma AddressesAgree(v: nat, port: nat)
    requires v < 0x1_0000_0000 && port < 65536
    ensures ParseProcAddress(Hex(8, v) + ":" + Hex(4, port)) == Some((FromBpfInt(v), port))
  {
    HexReadsBack(8, v);
    HexReadsBack(4, port);
    assert Pow16(4) == 65536 by {
      assert Pow16(2) == 256;
    }
    SplitColonFinds(Hex(8, v), Hex(4, port));
    HexIsBigEndian(4, v);
  }

  lemma DottedHasNoColon(b: seq<byte>)
    requires |b| == 4
    ensures ':' !in Dotted(b)
  {
    DecimalReadsBack(b[0] as nat);
    DecimalReadsBack(b[1] as nat);
    DecimalReadsBack(b[2] as nat);
    DecimalReadsBack(b[3] as nat);
  }

  /** The text of an IPv6 row is no IPv4 address, not even for the unspecified address. */
  lemma Ipv6TextIsNoIpv4Text(hex: string, port: string, v: nat)
    requires |hex| == 32 && ':' !in hex && HexNumber(port).Some?
    ensures ParseProcAddress(hex + ":" + port).Some?
    ensures ParseProcAddress(hex + ":" + port).value.0 != FromBpfInt(v)
  {
    SplitColonFinds(hex, port);
    DottedHasNoColon(Le(4, v));
    assert ParseProcAddress(hex + ":" + port).value.0[8] == ':';
  }

  /** For instance, the loopback address in the memory of a little-endian machine. */
  lemma LoopbackText()
    ensures FromBpfInt(0x0100007F) == "127.0.0.1"
  {
    LoopbackBytes();
    SmallDecimals();
  }

  lemma LoopbackBytes()
    ensures Le(4, 0x0100007F) == [127, 0, 0, 1]
  {
    assert Le(1, 1) == [1];
    assert Le(2, 0x0100) == [0] + Le(1, 1);
    assert Le(3, 0x010000) == [0] + Le(2, 0x0100);
  }

  lemma SmallDecimals()
    ensures Decimal(0) == "0" && Decimal(1) == "1" && Decimal(127) == "127"
  {
    assert Decimal(12) == Decimal(1) + "2";
  }

  /** And a number as the kernel prints it, in capitals, the higher digit first. */
  lemma HexText()
    ensures Hex(2, 163) == "A3"
  {
    HexEndsInAByte(2, 163);
    assert Hex(0, 0) == "";
  }

  /** It is the row's digits in groups of eight. */
  lemma Ipv6TextKeepsDigits(hex: string, port: string)
    requires |hex| == 32 && ':' !in hex && HexNumber(port).Some?
    ensures var text := ParseProcAddress(hex + ":" + port);
            && text.Some? && |text.value.0| == 35 && text.value.1 == HexNumber(port).value
            && forall i :: 0 <= i < 4 ==> text.value.0[9 * i..9 * i + 8] == hex[8 * i..8 * i + 8]
  {
    SplitColonFinds(hex, port);
  }

  // ------------------------------------------------------------- legacy matching

  /** The unspecified address, as `find_matches` writes it. */
  lemma ZeroAddressText()
    ensures FromBpfInt(0) == "0.0.0.0"
  {
    assert Le(1, 0) == [0] + Le(0, 0);
    assert Le(2, 0) == [0, 0] && Le(4, 0) == [0, 0, 0, 0];
    assert Decimal(0) == "0";
  }

  /** Does a socket row with this local address and port receive a packet to this
      destination, by the legacy rule? */
  predicate LegacyMatch(localIp: string, localPort: nat, dstIp: string, dstPort: nat) {
    localPort == dstPort && (localIp == "0.0.0.0" || localIp == dstIp)
  }

  /** On the rows of /proc/net/udp the rule selects exactly the equal port and the
      unspecified or numerically equal address ... */
  lemma LegacyMatchIsNumeric(local: nat, localPort: nat, dst: nat, dstPort: nat)
    requires local < 0x1_0000_0000 && localPort < 65536 && dst < 0x1_0000_0000
    ensures var row := ParseProcAddress(Hex(8, local) + ":" + Hex(4, localPort));
            row.Some? && (LegacyMatch(row.value.0, row.value.1, FromBpfInt(dst), dstPort) <==>
                            localPort == dstPort && (local == 0 || local == dst))
  {
    AddressesAgree(local, localPort);
    ZeroAddressText();
    BpfIntPrintsInjectively(local, 0);
    BpfIntPrintsInjectively(local, dst);
  }

  /** ... and it never selects a row of /proc/net/udp6, dual-stack sockets included. */
  lemma LegacyMatchNeverIpv6(hex: string, port: string, dst: nat, dstPort: nat)
    requires |hex| == 32 && ':' !in hex && HexNumber(port).Some?
    ensures var row := ParseProcAddress(hex + ":" + port);
            row.Some? && !LegacyMatch(row.value.0, row.value.1, FromBpfInt(dst), dstPort)
  {
    Ipv6TextIsNoIpv4Text(hex, port, dst);
    Ipv6TextIsNoIpv4Text(hex, port, 0);
    ZeroAddressText();
  }
}
